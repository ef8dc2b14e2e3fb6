/** Reading capabilities from a NEW_WIPHY packet (net/netlink_utils.cpp, GetWiphyInfo and its helpers). */
module WiphyInfo {
  import opened Bytes
  import opened AttributeFormat
  import opened Nl80211Attribute
  import opened Nl80211Packet
  import opened SplitWiphyDump

  const NL80211_ATTR_WIPHY_BANDS: nat := 22
  const NL80211_ATTR_MAX_NUM_SCAN_SSIDS: nat := 43
  const NL80211_ATTR_MAX_NUM_SCHED_SCAN_SSIDS: nat := 123
  const NL80211_ATTR_MAX_MATCH_SETS: nat := 133
  const NL80211_ATTR_FEATURE_FLAGS: nat := 143
  const NL80211_ATTR_EXT_FEATURES: nat := 217
  const NL80211_ATTR_MAX_NUM_SCHED_SCAN_PLANS: nat := 222
  const NL80211_ATTR_MAX_SCAN_PLAN_INTERVAL: nat := 223
  const NL80211_ATTR_MAX_SCAN_PLAN_ITERATIONS: nat := 224

  const NL80211_BAND_ATTR_FREQS: nat := 1
  const NL80211_FREQUENCY_ATTR_FREQ: nat := 1
  const NL80211_FREQUENCY_ATTR_DISABLED: nat := 2
  const NL80211_FREQUENCY_ATTR_NO_IR: nat := 3
  const NL80211_FREQUENCY_ATTR_DFS_STATE: nat := 7
  const NL80211_DFS_USABLE: nat := 0
  const NL80211_DFS_AVAILABLE: nat := 2

  const NL80211_FEATURE_SCAN_RANDOM_MAC_ADDR: nat := 0x2000_0000
  const NL80211_FEATURE_SCHED_SCAN_RANDOM_MAC_ADDR: nat := 0x4000_0000
  const NL80211_EXT_FEATURE_LOW_SPAN_SCAN: nat := 22
  const NL80211_EXT_FEATURE_LOW_POWER_SCAN: nat := 23
  const NL80211_EXT_FEATURE_HIGH_ACCURACY_SCAN: nat := 24

  datatype BandInfo = BandInfo(band2g: seq<nat>, band5g: seq<nat>, bandDfs: seq<nat>)

  datatype ScanCapabilities = ScanCapabilities(
    maxNumScanSsids: nat, maxNumSchedScanSsids: nat, maxMatchSets: nat,
    maxNumScanPlans: nat, maxScanPlanInterval: nat, maxScanPlanIterations: nat)

  datatype WiphyFeatures = WiphyFeatures(
    supportsRandomMacOneshotScan: bool, supportsRandomMacSchedScan: bool,
    supportsLowSpanOneshotScan: bool, supportsLowPowerOneshotScan: bool, supportsHighAccuracyOneshotScan: bool)

  datatype Info = Info(bands: BandInfo, capabilities: ScanCapabilities, features: WiphyFeatures)

  // ---- frequencies ----

  datatype Channel = Ignored | Band2g(freq: nat) | Band5g(freq: nat) | Dfs(freq: nat)

  predicate AllowsDfs(freq: Buffer) {
    var state := FindUInt(freq, NL80211_FREQUENCY_ATTR_DFS_STATE, 4);
    state == Some(NL80211_DFS_AVAILABLE) || state == Some(NL80211_DFS_USABLE)
  }

  /** Which list a frequency attribute goes to, given its nested attributes. */
  function ChannelOf(freq: Buffer): Channel {
    match FindUInt(freq, NL80211_FREQUENCY_ATTR_FREQ, 4)
    case None => Ignored
    case Some(f) =>
      if Found(freq, NL80211_FREQUENCY_ATTR_DISABLED).Some? then Ignored
      else if 2400 < f < 2500 then Band2g(f)
      else if 5000 < f < 5850 then
        if AllowsDfs(freq) then Dfs(f)
        else if Found(freq, NL80211_FREQUENCY_ATTR_NO_IR).Some? then Dfs(f)
        else Band5g(f)
      else Ignored
  }

  function WithChannel(info: BandInfo, channel: Channel): BandInfo {
    match channel
    case Ignored => info
    case Band2g(f) => info.(band2g := info.band2g + [f])
    case Band5g(f) => info.(band5g := info.band5g + [f])
    case Dfs(f) => info.(bandDfs := info.bandDfs + [f])
  }

  /** The band lists after taking up frequency attributes in order. */
  function WithFreqs(info: BandInfo, freqs: seq<Buffer>): BandInfo
    requires forall i :: 0 <= i < |freqs| ==> IsValid(freqs[i])
  {
    if freqs == [] then info
    else
      var last := freqs[|freqs| - 1];
      assert IsValid(last);
      WithChannel(WithFreqs(info, freqs[..|freqs| - 1]), ChannelOf(last[NLA_HDRLEN..]))
  }

  lemma {:induction false} WithFreqsAppend(info: BandInfo, xs: seq<Buffer>, ys: seq<Buffer>)
    requires forall i :: 0 <= i < |xs| ==> IsValid(xs[i])
    requires forall i :: 0 <= i < |ys| ==> IsValid(ys[i])
    ensures WithFreqs(info, xs + ys) == WithFreqs(WithFreqs(info, xs), ys)
  {
    if ys == [] {
      assert xs + ys == xs;
    } else {
      var last := ys[|ys| - 1];
      assert IsValid(last);
      assert (xs + ys)[..|xs + ys| - 1] == xs + ys[..|ys| - 1];
      WithFreqsAppend(info, xs, ys[..|ys| - 1]);
    }
  }

  /** The frequency attributes of one band: none if the band has no readable list. */
  function FreqsOfBand(band: Buffer): (freqs: seq<Buffer>)
    ensures forall i :: 0 <= i < |freqs| ==> IsValid(freqs[i])
  {
    match Find(band, NL80211_BAND_ATTR_FREQS)
    case None => []
    case Some(list) =>
      FindIsValid(band, NL80211_BAND_ATTR_FREQS);
      SlicesAreValid(list[NLA_HDRLEN..]);
      if WellFormed(list[NLA_HDRLEN..]) then Slices(list[NLA_HDRLEN..]) else []
  }

  /** The frequency attributes of all bands, in order. */
  function FreqsOfBands(bands: seq<Buffer>): (freqs: seq<Buffer>)
    requires forall i :: 0 <= i < |bands| ==> IsValid(bands[i])
    ensures forall i :: 0 <= i < |freqs| ==> IsValid(freqs[i])
  {
    if bands == [] then []
    else
      assert IsValid(bands[|bands| - 1]);
      FreqsOfBands(bands[..|bands| - 1]) + FreqsOfBand(bands[|bands| - 1][NLA_HDRLEN..])
  }

  const NO_BANDS: BandInfo := BandInfo([], [], [])

  /** What a list of bands means. */
  function BandsMeaning(list: Buffer): Option<BandInfo> {
    if WellFormed(list) then
      SlicesAreValid(list);
      Some(WithFreqs(NO_BANDS, FreqsOfBands(Slices(list))))
    else None
  }

  function BandInfoIn(body: Buffer): Option<BandInfo> {
    match Find(body, NL80211_ATTR_WIPHY_BANDS)
    case None => None
    case Some(bands) => FindIsValid(body, NL80211_ATTR_WIPHY_BANDS); BandsMeaning(bands[NLA_HDRLEN..])
  }

  // ---- what the parsers demand: each search they get to comes to an end ----

  predicate SearchableFreq(freq: Buffer) {
    && SearchEnds(freq, NL80211_FREQUENCY_ATTR_FREQ)
    && match FindUInt(freq, NL80211_FREQUENCY_ATTR_FREQ, 4)
       case None => true
       case Some(f) =>
         && SearchEnds(freq, NL80211_FREQUENCY_ATTR_DISABLED)
         && (Found(freq, NL80211_FREQUENCY_ATTR_DISABLED) == None && 5000 < f < 5850 ==>
               && SearchEnds(freq, NL80211_FREQUENCY_ATTR_DFS_STATE)
               && (AllowsDfs(freq) || SearchEnds(freq, NL80211_FREQUENCY_ATTR_NO_IR)))
  }

  predicate SearchableFreqs(band: Buffer) {
    && SearchEnds(band, NL80211_BAND_ATTR_FREQS)
    && forall i :: 0 <= i < |FreqsOfBand(band)| ==> SearchableFreq(FreqsOfBand(band)[i][NLA_HDRLEN..])
  }

  predicate SearchableBands(list: Buffer) {
    SlicesAreValid(list);
    WellFormed(list) ==> forall i :: 0 <= i < |Slices(list)| ==> SearchableFreqs(Slices(list)[i][NLA_HDRLEN..])
  }

  predicate BandsSearchable(body: Buffer) {
    && SearchEnds(body, NL80211_ATTR_WIPHY_BANDS)
    && match Find(body, NL80211_ATTR_WIPHY_BANDS)
       case None => true
       case Some(bands) => FindIsValid(body, NL80211_ATTR_WIPHY_BANDS); SearchableBands(bands[NLA_HDRLEN..])
  }

  predicate CapabilitiesSearchable(body: Buffer) {
    && SearchEnds(body, NL80211_ATTR_MAX_NUM_SCAN_SSIDS)
    && (FindUInt(body, NL80211_ATTR_MAX_NUM_SCAN_SSIDS, 1).Some? ==>
          && SearchEnds(body, NL80211_ATTR_MAX_NUM_SCHED_SCAN_SSIDS)
          && (FindUInt(body, NL80211_ATTR_MAX_NUM_SCHED_SCAN_SSIDS, 1).Some? ==>
                && SearchEnds(body, NL80211_ATTR_MAX_NUM_SCHED_SCAN_PLANS)
                && SearchEnds(body, NL80211_ATTR_MAX_SCAN_PLAN_INTERVAL)
                && SearchEnds(body, NL80211_ATTR_MAX_SCAN_PLAN_ITERATIONS)
                && SearchEnds(body, NL80211_ATTR_MAX_MATCH_SETS)))
  }

  predicate FeaturesSearchable(body: Buffer) {
    && SearchEnds(body, NL80211_ATTR_FEATURE_FLAGS)
    && (FindUInt(body, NL80211_ATTR_FEATURE_FLAGS, 4).Some? ==>
          SearchEnds(body, NL80211_ATTR_EXT_FEATURES) && BytesReadable(body, NL80211_ATTR_EXT_FEATURES))
  }

  /** The three parsers, of which one that fails keeps the next from running. */
  predicate Searchable(data: Buffer)
    requires |data| >= HDRLEN
  {
    var body := data[HDRLEN..];
    Command(data) == NL80211_CMD_NEW_WIPHY ==>
      && BandsSearchable(body)
      && (BandInfoIn(body).Some? ==>
            && CapabilitiesSearchable(body)
            && (CapabilitiesIn(body).Some? ==> FeaturesSearchable(body)))
  }

  // ---- ParseBandInfo ----

  method AddFrequency(freq: NL80211Attr, info: BandInfo) returns (after: BandInfo)
    requires |freq.data| >= NLA_HDRLEN && SearchableFreq(freq.data[NLA_HDRLEN..])
    ensures after == WithChannel(info, ChannelOf(freq.data[NLA_HDRLEN..]))
  {
    var found, frequency := freq.GetUIntValue(NL80211_FREQUENCY_ATTR_FREQ, 4, 0);
    if !found {
      return info;
    }
    var disabled := freq.HasAttribute(NL80211_FREQUENCY_ATTR_DISABLED);
    if disabled {
      return info;
    }
    if frequency > 2400 && frequency < 2500 {
      return info.(band2g := info.band2g + [frequency]);
    } else if frequency > 5000 && frequency < 5850 {
      var hasState, dfsState := freq.GetUIntValue(NL80211_FREQUENCY_ATTR_DFS_STATE, 4, 0);
      if hasState && (dfsState == NL80211_DFS_AVAILABLE || dfsState == NL80211_DFS_USABLE) {
        return info.(bandDfs := info.bandDfs + [frequency]);
      }
      var passive := freq.HasAttribute(NL80211_FREQUENCY_ATTR_NO_IR);
      if passive {
        return info.(bandDfs := info.bandDfs + [frequency]);
      }
      return info.(band5g := info.band5g + [frequency]);
    }
    return info;
  }

  lemma {:induction false} WithFreqsStep(info: BandInfo, freqs: seq<Buffer>, i: nat)
    requires i < |freqs| && forall j :: 0 <= j < |freqs| ==> IsValid(freqs[j])
    ensures |freqs[i]| >= NLA_HDRLEN
    ensures WithFreqs(info, freqs[..i + 1]) == WithChannel(WithFreqs(info, freqs[..i]), ChannelOf(freqs[i][NLA_HDRLEN..]))
  {
    assert freqs[..i + 1][..i] == freqs[..i];
  }

  /** The innermost loop, over the frequencies of one band. */
  method AddFrequencies(freqs: seq<NL80211Attr>, info: BandInfo, ghost slices: seq<Buffer>) returns (after: BandInfo)
    requires |freqs| == |slices| && forall i :: 0 <= i < |slices| ==> freqs[i].data == slices[i]
    requires forall i :: 0 <= i < |slices| ==> IsValid(slices[i]) && SearchableFreq(slices[i][NLA_HDRLEN..])
    ensures after == WithFreqs(info, slices)
  {
    after := info;
    for i := 0 to |freqs|
      invariant after == WithFreqs(info, slices[..i])
    {
      WithFreqsStep(info, slices, i);
      after := AddFrequency(freqs[i], after);
    }
    assert slices[..|freqs|] == slices;
  }

  method AddBand(band: NL80211Attr, info: BandInfo) returns (after: BandInfo)
    requires |band.data| >= NLA_HDRLEN && SearchableFreqs(band.data[NLA_HDRLEN..])
    ensures after == WithFreqs(info, FreqsOfBand(band.data[NLA_HDRLEN..]))
  {
    var freqsAttr := new NL80211Attr.Nested(0);
    var found := band.GetAttribute(NL80211_BAND_ATTR_FREQS, freqsAttr);
    if !found {
      return info;
    }
    FindIsValid(band.data[NLA_HDRLEN..], NL80211_BAND_ATTR_FREQS);
    var read, freqs := freqsAttr.GetListOfNestedAttributes([]);
    if !read {
      return info;
    }
    after := AddFrequencies(freqs, info, FreqsOfBand(band.data[NLA_HDRLEN..]));
  }

  lemma {:induction false} FreqsOfBandsStep(info: BandInfo, bands: seq<Buffer>, i: nat)
    requires i < |bands| && forall j :: 0 <= j < |bands| ==> IsValid(bands[j])
    ensures |bands[i]| >= NLA_HDRLEN
    ensures WithFreqs(info, FreqsOfBands(bands[..i + 1])) ==
            WithFreqs(WithFreqs(info, FreqsOfBands(bands[..i])), FreqsOfBand(bands[i][NLA_HDRLEN..]))
  {
    assert bands[..i + 1][..i] == bands[..i];
    assert IsValid(bands[i]);
    WithFreqsAppend(info, FreqsOfBands(bands[..i]), FreqsOfBand(bands[i][NLA_HDRLEN..]));
  }

  /** The outer loop, over the bands. */
  method AddBands(bands: seq<NL80211Attr>, info: BandInfo, ghost slices: seq<Buffer>) returns (after: BandInfo)
    requires |bands| == |slices| && forall i :: 0 <= i < |slices| ==> bands[i].data == slices[i]
    requires forall i :: 0 <= i < |slices| ==> IsValid(slices[i]) && SearchableFreqs(slices[i][NLA_HDRLEN..])
    ensures after == WithFreqs(info, FreqsOfBands(slices))
  {
    after := info;
    for i := 0 to |bands|
      invariant after == WithFreqs(info, FreqsOfBands(slices[..i]))
    {
      FreqsOfBandsStep(info, slices, i);
      after := AddBand(bands[i], after);
    }
    assert slices[..|bands|] == slices;
  }

  method ParseBandInfo(packet: NL80211Packet, initial: BandInfo) returns (ok: bool, bandInfo: BandInfo)
    requires |packet.data| >= HDRLEN && BandsSearchable(packet.data[HDRLEN..])
    ensures ok == BandInfoIn(packet.data[HDRLEN..]).Some?
    ensures bandInfo == BandInfoIn(packet.data[HDRLEN..]).GetOr(initial)
  {
    var bandsAttr := new NL80211Attr.Nested(0);
    var found := packet.GetAttribute(NL80211_ATTR_WIPHY_BANDS, bandsAttr);
    if !found {
      return false, initial;
    }
    FindIsValid(packet.data[HDRLEN..], NL80211_ATTR_WIPHY_BANDS);
    SlicesAreValid(bandsAttr.data[NLA_HDRLEN..]);
    var read, bands := bandsAttr.GetListOfNestedAttributes([]);
    if !read {
      return false, initial;
    }
    var info := AddBands(bands, NO_BANDS, Slices(bandsAttr.data[NLA_HDRLEN..]));
    return true, info;
  }

  // ---- ParseScanCapabilities ----

  function CapabilitiesIn(body: Buffer): Option<ScanCapabilities> {
    var scanSsids := FindUInt(body, NL80211_ATTR_MAX_NUM_SCAN_SSIDS, 1);
    var schedScanSsids := FindUInt(body, NL80211_ATTR_MAX_NUM_SCHED_SCAN_SSIDS, 1);
    var matchSets := FindUInt(body, NL80211_ATTR_MAX_MATCH_SETS, 1);
    if scanSsids.None? || schedScanSsids.None? || matchSets.None? then None
    else Some(ScanCapabilities(
                scanSsids.value, schedScanSsids.value, matchSets.value,
                FindUInt(body, NL80211_ATTR_MAX_NUM_SCHED_SCAN_PLANS, 4).GetOr(0),
                FindUInt(body, NL80211_ATTR_MAX_SCAN_PLAN_INTERVAL, 4).GetOr(0),
                FindUInt(body, NL80211_ATTR_MAX_SCAN_PLAN_ITERATIONS, 4).GetOr(0)))
  }

  method ParseScanCapabilities(packet: NL80211Packet, initial: ScanCapabilities)
    returns (ok: bool, capabilities: ScanCapabilities)
    requires |packet.data| >= HDRLEN && CapabilitiesSearchable(packet.data[HDRLEN..])
    ensures ok == CapabilitiesIn(packet.data[HDRLEN..]).Some?
    ensures capabilities == CapabilitiesIn(packet.data[HDRLEN..]).GetOr(initial)
  {
    var found, maxNumScanSsids := packet.GetUIntValue(NL80211_ATTR_MAX_NUM_SCAN_SSIDS, 1, 0);
    if !found {
      return false, initial;
    }
    var maxNumSchedScanSsids;
    found, maxNumSchedScanSsids := packet.GetUIntValue(NL80211_ATTR_MAX_NUM_SCHED_SCAN_SSIDS, 1, 0);
    if !found {
      return false, initial;
    }
    var _, maxNumScanPlans := packet.GetUIntValue(NL80211_ATTR_MAX_NUM_SCHED_SCAN_PLANS, 4, 0);
    var _, maxScanPlanInterval := packet.GetUIntValue(NL80211_ATTR_MAX_SCAN_PLAN_INTERVAL, 4, 0);
    var _, maxScanPlanIterations := packet.GetUIntValue(NL80211_ATTR_MAX_SCAN_PLAN_ITERATIONS, 4, 0);
    var maxMatchSets;
    found, maxMatchSets := packet.GetUIntValue(NL80211_ATTR_MAX_MATCH_SETS, 1, 0);
    if !found {
      return false, initial;
    }
    return true, ScanCapabilities(maxNumScanSsids, maxNumSchedScanSsids, maxMatchSets,
                                  maxNumScanPlans, maxScanPlanInterval, maxScanPlanIterations);
  }

  // ---- ParseWiphyInfoFromPacket ----

  predicate IsExtFeatureFlagSet(extFeatureFlags: Buffer, flag: nat) {
    && flag / 8 < |extFeatureFlags|
    && BitAnd(extFeatureFlags[flag / 8] as int, Pow2(flag % 8)) != 0
  }

  function FeaturesOf(featureFlags: nat, extFeatureFlags: Buffer): WiphyFeatures {
    WiphyFeatures(
      BitAnd(featureFlags, NL80211_FEATURE_SCAN_RANDOM_MAC_ADDR) != 0,
      BitAnd(featureFlags, NL80211_FEATURE_SCHED_SCAN_RANDOM_MAC_ADDR) != 0,
      IsExtFeatureFlagSet(extFeatureFlags, NL80211_EXT_FEATURE_LOW_SPAN_SCAN),
      IsExtFeatureFlagSet(extFeatureFlags, NL80211_EXT_FEATURE_LOW_POWER_SCAN),
      IsExtFeatureFlagSet(extFeatureFlags, NL80211_EXT_FEATURE_HIGH_ACCURACY_SCAN))
  }

  function FeaturesIn(body: Buffer): Option<WiphyFeatures> {
    match FindUInt(body, NL80211_ATTR_FEATURE_FLAGS, 4)
    case None => None
    case Some(flags) => Some(FeaturesOf(flags, FindBytes(body, NL80211_ATTR_EXT_FEATURES).GetOr([])))
  }

  /** Parsing one packet: whether it succeeds, and the outputs, part of which a failure may have written. */
  function Parsed(data: Buffer, before: Info): (bool, Info)
    requires |data| >= HDRLEN
  {
    var body := data[HDRLEN..];
    if Command(data) != NL80211_CMD_NEW_WIPHY || BandInfoIn(body).None? then (false, before)
    else
      var withBands := before.(bands := BandInfoIn(body).value);
      if CapabilitiesIn(body).None? then (false, withBands)
      else
        var withCapabilities := withBands.(capabilities := CapabilitiesIn(body).value);
        if FeaturesIn(body).None? then (false, withCapabilities)
        else (true, withCapabilities.(features := FeaturesIn(body).value))
  }

  method ParseWiphyInfoFromPacket(packet: NL80211Packet, before: Info) returns (ok: bool, info: Info)
    requires |packet.data| >= HDRLEN && Searchable(packet.data)
    ensures (ok, info) == Parsed(packet.data, before)
  {
    info := before;
    if Command(packet.data) != NL80211_CMD_NEW_WIPHY {
      return false, info;
    }
    var bands;
    ok, bands := ParseBandInfo(packet, info.bands);
    info := info.(bands := bands);
    if !ok {
      return false, info;
    }
    var capabilities;
    ok, capabilities := ParseScanCapabilities(packet, info.capabilities);
    info := info.(capabilities := capabilities);
    if !ok {
      return false, info;
    }
    var found, featureFlags := packet.GetUIntValue(NL80211_ATTR_FEATURE_FLAGS, 4, 0);
    if !found {
      return false, info;
    }
    var _, extFeatureFlags := packet.GetBytesValue(NL80211_ATTR_EXT_FEATURES, []);
    info := info.(features := FeaturesOf(featureFlags, extFeatureFlags));
    return true, info;
  }

  // ---- GetWiphyInfo ----

  predicate HasBody(data: Buffer) {
    |data| >= HDRLEN
  }

  /** The first packet of the requested wiphy that parses decides; earlier ones may leave partial outputs. */
  function Selected(datas: seq<Buffer>, wiphy: nat, before: Info): (bool, Info)
    requires forall i :: 0 <= i < |datas| ==> HasBody(datas[i])
  {
    if |datas| == 0 then (false, before)
    else
      assert HasBody(datas[0]);
      if WiphyOf(datas[0][HDRLEN..]) != Some(wiphy) then Selected(datas[1..], wiphy, before)
      else
        var (ok, info) := Parsed(datas[0], before);
        if ok then (true, info) else Selected(datas[1..], wiphy, info)
  }

  /** What looking for the wiphy demands of the packets it gets to: the searches for their wiphy end, and those of a parse. */
  predicate Scannable(datas: seq<Buffer>, wiphy: nat, before: Info)
    requires forall i :: 0 <= i < |datas| ==> HasBody(datas[i])
  {
    |datas| > 0 ==>
      assert HasBody(datas[0]);
      var data := datas[0];
      && SearchEnds(data[HDRLEN..], NL80211_ATTR_WIPHY)
      && if WiphyOf(data[HDRLEN..]) != Some(wiphy) then Scannable(datas[1..], wiphy, before)
         else
           var (ok, info) := Parsed(data, before);
           Searchable(data) && (ok || Scannable(datas[1..], wiphy, info))
  }

  /** The last loop of GetWiphyInfo, over the packets that are left after merging. */
  method SelectWiphyInfo(packets: seq<NL80211Packet>, wiphyIndex: nat, before: Info, ghost datas: seq<Buffer>)
    returns (ok: bool, info: Info)
    requires |packets| == |datas| && forall i :: 0 <= i < |datas| ==> HasBody(datas[i])
    requires Scannable(datas, wiphyIndex, before)
    requires forall i :: 0 <= i < |packets| ==> packets[i].data == datas[i]
    ensures (ok, info) == Selected(datas, wiphyIndex, before)
  {
    info := before;
    for i := 0 to |packets|
      invariant Selected(datas, wiphyIndex, before) == Selected(datas[i..], wiphyIndex, info)
      invariant Scannable(datas[i..], wiphyIndex, info)
    {
      assert HasBody(datas[i]);
      assert datas[i..][0] == datas[i] && datas[i..][1..] == datas[i + 1..];
      var found, currentWiphyIndex := packets[i].GetUIntValue(NL80211_ATTR_WIPHY, 4, 0);
      if found && currentWiphyIndex == wiphyIndex {
        ok, info := ParseWiphyInfoFromPacket(packets[i], info);
        if ok {
          return true, info;
        }
      }
    }
    return false, info;
  }

  /** All packets the merge of these pieces builds, in order. */
  function MergedPackets(pieces: seq<Piece>): (datas: seq<Buffer>)
    ensures |datas| == |Ascending(Wiphys(pieces))|
    ensures forall i :: 0 <= i < |datas| ==> datas[i] == MergedPacket(pieces, Ascending(Wiphys(pieces))[i])
  {
    var wiphys := Ascending(Wiphys(pieces));
    seq(|wiphys|, i requires 0 <= i < |wiphys| => MergedPacket(pieces, wiphys[i]))
  }

  /** The packets that GetWiphyInfo looks through. */
  function PacketsToSearch(split: bool, datas: seq<Buffer>, bodies: seq<Buffer>): seq<Buffer>
    requires split ==> AllReadable(bodies)
  {
    if !split then datas else if AllMergeable(bodies) then MergedPackets(AllPieces(bodies)) else []
  }

  /**
     GetWiphyInfo after the dump has arrived (`response` is None if it did not). A split dump is merged
     first; a merge that fails leaves nothing to look through.
   */
  method GetWiphyInfo(response: Option<seq<NL80211Packet>>, supportsSplitWiphyDump: bool, wiphyIndex: nat, before: Info,
                      ghost datas: seq<Buffer>, ghost bodies: seq<Buffer>)
    returns (ok: bool, info: Info)
    requires supportsSplitWiphyDump ==> AllReadable(bodies)
    requires response.Some? ==>
               && |response.value| == |datas|
               && (forall i :: 0 <= i < |datas| ==> response.value[i].data == datas[i])
               && HaveBodies(response.value, bodies)
               && (supportsSplitWiphyDump ==> JoinedFit(AllPieces(bodies)))
    requires var packets := PacketsToSearch(supportsSplitWiphyDump, datas, bodies);
             (forall i :: 0 <= i < |packets| ==> HasBody(packets[i])) && Scannable(packets, wiphyIndex, before)
    ensures response == None ==> !ok && info == before
    ensures response.Some? ==>
              (ok, info) == Selected(PacketsToSearch(supportsSplitWiphyDump, datas, bodies), wiphyIndex, before)
  {
    if response == None {
      return false, before;
    }
    ghost var expected := PacketsToSearch(supportsSplitWiphyDump, datas, bodies);
    var packetPerWiphy := response.value;
    if supportsSplitWiphyDump {
      var merged;
      merged, packetPerWiphy := MergePacketsForSplitWiphyDump(response.value, [], bodies);
    }
    ok, info := SelectWiphyInfo(packetPerWiphy, wiphyIndex, before, expected);
  }
}
