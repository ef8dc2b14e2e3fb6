/** What the receiver of a scheduled-scan request reads out of it: exactly the arguments it was built from. */
module SchedScanDecode {
  import opened Bytes
  import opened AttributeFormat
  import opened AttributeTree
  import opened Nl80211Attribute
  import opened PnoRequest
  import opened SchedScanRequest

  /** The request fits the format: every attribute length 16 bits, every integer 32. */
  predicate FitsRequest(r: Request) {
    && AllFitTree(RequestNodes(r))
    && r.interfaceIndex < U32_SIZE
    && (forall i :: 0 <= i < |r.freqs| ==> r.freqs[i] < U32_SIZE)
    && r.interval.finalIntervalMs < U32_SIZE
    && (forall i :: 0 <= i < |r.interval.plans| ==>
          r.interval.plans[i].intervalMs < U32_SIZE && r.interval.plans[i].nIterations < U32_SIZE)
  }

  function Body(r: Request): Buffer {
    EncodeNodes(RequestNodes(r))
  }

  function FixedLookup(r: Request, id: nat): Option<Node> {
    var f := FixedNodes(r);
    if id == NL80211_ATTR_SCHED_SCAN_MATCH then Some(f[0])
    else if id == NL80211_ATTR_SCHED_SCAN_RSSI_ADJUST then Some(f[1])
    else if id == NL80211_ATTR_IFINDEX then Some(f[2])
    else if id == NL80211_ATTR_SCAN_SSIDS then Some(f[3])
    else None
  }

  lemma {:induction false} FixedNodesLookup(r: Request, id: nat)
    ensures FirstChild(FixedNodes(r), id) == FixedLookup(r, id)
  {
    var f := FixedNodes(r);
    assert f == [f[0]] + [f[1]] + [f[2]] + [f[3]];
    FirstChildAppend([f[0]], [f[1]], id);
    FirstChildAppend([f[0]] + [f[1]], [f[2]], id);
    FirstChildAppend([f[0]] + [f[1]] + [f[2]], [f[3]], id);
  }

  /** Which attribute a request has for an id. */
  lemma {:induction false} RequestLookup(r: Request, id: nat)
    ensures FirstChild(RequestNodes(r), id) ==
            if FixedLookup(r, id).Some? then FixedLookup(r, id)
            else if id == NL80211_ATTR_SCAN_FREQUENCIES then
              (if r.freqs == [] then None else Some(Nest(NL80211_ATTR_SCAN_FREQUENCIES, FreqLeaves(r.freqs))))
            else if id == IntervalNode(r.interval).id then Some(IntervalNode(r.interval))
            else if id == NL80211_ATTR_SCAN_FLAGS && ScanFlags(r) != 0 then Some(U32Leaf(id, ScanFlags(r)))
            else None
  {
    FixedNodesLookup(r, id);
    FirstChildAppend(FixedNodes(r), FreqPart(r), id);
    FirstChildAppend(FixedNodes(r) + FreqPart(r), [IntervalNode(r.interval)], id);
    FirstChildAppend(FixedNodes(r) + FreqPart(r) + [IntervalNode(r.interval)], FlagsPart(r), id);
  }

  /** The nested attribute of a request with this id, as a getter copies it out. */
  lemma {:induction false} FindNested(r: Request, n: Node)
    requires FitsRequest(r) && n.Nest? && FirstChild(RequestNodes(r), n.id) == Some(n)
    ensures FitsTree(n)
    ensures Find(Body(r), n.id) == Some(EncodeNode(n)) && EncodeNode(n)[NLA_HDRLEN..] == EncodeNodes(n.kids)
    ensures WellFormed(EncodeNodes(n.kids)) && NoShortHeaders(EncodeNodes(n.kids))
    ensures |Slices(EncodeNodes(n.kids))| == |n.kids|
    ensures forall i :: 0 <= i < |n.kids| ==> Slices(EncodeNodes(n.kids))[i] == EncodeNode(n.kids[i])
  {
    FindChild(RequestNodes(r), n.id);
    SlicesOfNested(n);
  }

  lemma {:induction false} DecodesInterface(r: Request)
    requires FitsRequest(r)
    ensures FindUInt(Body(r), NL80211_ATTR_IFINDEX, 4) == Some(r.interfaceIndex)
  {
    RequestLookup(r, NL80211_ATTR_IFINDEX);
    Pow256Of4();
    FindUIntChild(RequestNodes(r), NL80211_ATTR_IFINDEX, r.interfaceIndex, 4);
  }

  lemma {:induction false} SignedByte(delta: int)
    ensures 0 <= delta % 256 < 256
    ensures Int8((delta % 256) as u8 as int) == Int8(delta)
    ensures -128 <= delta < 128 <==> Int8(delta) == delta
  {
  }

  /** The 2.4 GHz correction of the threshold: the difference, as a signed byte. */
  lemma {:induction false} DecodesRssiAdjust(r: Request)
    requires FitsRequest(r)
    ensures BytesReadable(Body(r), NL80211_ATTR_SCHED_SCAN_RSSI_ADJUST)
    ensures var found := FindBytes(Body(r), NL80211_ATTR_SCHED_SCAN_RSSI_ADJUST);
            && found.Some? && |found.value| == 2 && found.value[0] == NL80211_BAND_2GHZ
            && Int8(found.value[1] as int) == Int8(r.rssi2g - r.rssi5g)
            && (-128 <= r.rssi2g - r.rssi5g < 128 <==> Int8(found.value[1] as int) == r.rssi2g - r.rssi5g)
  {
    RequestLookup(r, NL80211_ATTR_SCHED_SCAN_RSSI_ADJUST);
    SignedByte(r.rssi2g - r.rssi5g);
    FindBytesChild(RequestNodes(r), NL80211_ATTR_SCHED_SCAN_RSSI_ADJUST, RssiAdjust(r.rssi2g, r.rssi5g));
  }

  /** The list of SSIDs to scan for, the empty wildcard included. */
  lemma {:induction false} DecodesScanSsids(r: Request)
    requires FitsRequest(r)
    ensures var found := Find(Body(r), NL80211_ATTR_SCAN_SSIDS);
            && found.Some? && |found.value| >= NLA_HDRLEN
            && WellFormed(found.value[NLA_HDRLEN..]) && NoShortHeaders(found.value[NLA_HDRLEN..])
            && BytesList(found.value[NLA_HDRLEN..]) == r.scanSsids
  {
    var n := Nest(NL80211_ATTR_SCAN_SSIDS, SsidLeaves(r.scanSsids));
    RequestLookup(r, NL80211_ATTR_SCAN_SSIDS);
    FindNested(r, n);
    forall i | 0 <= i < |r.scanSsids|
      ensures BytesList(EncodeNodes(n.kids))[i] == r.scanSsids[i]
    {
      assert FitsTree(n.kids[i]);
      EncodeRoundTrip(ToAttr(n.kids[i]));
    }
  }

  /** The frequencies: absent exactly when none are given, which asks for all. */
  lemma {:induction false} DecodesFrequencies(r: Request)
    requires FitsRequest(r)
    ensures var found := Find(Body(r), NL80211_ATTR_SCAN_FREQUENCIES);
            if r.freqs == [] then found == None
            else
              && found.Some? && |found.value| >= NLA_HDRLEN
              && IsUIntList(found.value[NLA_HDRLEN..], 4)
              && UIntList(found.value[NLA_HDRLEN..], 4) == r.freqs
  {
    RequestLookup(r, NL80211_ATTR_SCAN_FREQUENCIES);
    if r.freqs == [] {
      FindChild(RequestNodes(r), NL80211_ATTR_SCAN_FREQUENCIES);
    } else {
      var n := Nest(NL80211_ATTR_SCAN_FREQUENCIES, FreqLeaves(r.freqs));
      FindNested(r, n);
      Pow256Of4();
      forall i | 0 <= i < |r.freqs|
        ensures var s := Slices(EncodeNodes(n.kids))[i]; IsValidIntegral(s, 4) && UIntOf(s, 4) == r.freqs[i]
      {
        assert FitsTree(n.kids[i]);
        IntegralReads(i, r.freqs[i], 4);
      }
    }
  }

  lemma {:induction false} IntegralReads(id: nat, value: nat, width: nat)
    requires Fits(Attr(id, LittleEndian(value, width))) && value < Pow256(width)
    ensures IsValidIntegral(Encode(Attr(id, LittleEndian(value, width))), width)
    ensures UIntOf(Encode(Attr(id, LittleEndian(value, width))), width) == value
  {
    EncodeRoundTrip(Attr(id, LittleEndian(value, width)));
    EncodeReads(Attr(id, LittleEndian(value, width)));
    ValueOfLittleEndian(value, width);
  }

  /** One match group per SSID, in order, each with the SSID and the 5 GHz threshold. */
  lemma {:induction false} DecodesMatchGroups(r: Request)
    requires FitsRequest(r)
    ensures var found := Find(Body(r), NL80211_ATTR_SCHED_SCAN_MATCH);
            && found.Some? && |found.value| >= NLA_HDRLEN
            && var groups := found.value[NLA_HDRLEN..];
               && WellFormed(groups) && |Slices(groups)| == |r.matchSsids|
               && forall i :: 0 <= i < |r.matchSsids| ==>
                    && |Slices(groups)[i]| >= NLA_HDRLEN
                    && var group := Slices(groups)[i][NLA_HDRLEN..];
                       && BytesReadable(group, NL80211_SCHED_SCAN_MATCH_ATTR_SSID)
                       && FindBytes(group, NL80211_SCHED_SCAN_MATCH_ATTR_SSID) == Some(r.matchSsids[i])
                       && FindUInt(group, NL80211_SCHED_SCAN_MATCH_ATTR_RSSI, 4) == Some(UInt32(r.rssi5g))
  {
    var n := Nest(NL80211_ATTR_SCHED_SCAN_MATCH, MatchGroups(r.matchSsids, r.rssi5g));
    RequestLookup(r, NL80211_ATTR_SCHED_SCAN_MATCH);
    FindNested(r, n);
    forall i | 0 <= i < |r.matchSsids|
      ensures var group := EncodeNode(n.kids[i]);
              && |group| >= NLA_HDRLEN && BytesReadable(group[NLA_HDRLEN..], NL80211_SCHED_SCAN_MATCH_ATTR_SSID)
              && FindBytes(group[NLA_HDRLEN..], NL80211_SCHED_SCAN_MATCH_ATTR_SSID) == Some(r.matchSsids[i])
              && FindUInt(group[NLA_HDRLEN..], NL80211_SCHED_SCAN_MATCH_ATTR_RSSI, 4) == Some(UInt32(r.rssi5g))
    {
      assert FitsTree(n.kids[i]);
      DecodesMatchGroup(i, r.matchSsids[i], r.rssi5g);
    }
  }

  lemma {:induction false} DecodesMatchGroup(i: nat, ssid: Ssid, rssi5g: int)
    requires FitsTree(MatchGroup(i, ssid, rssi5g))
    ensures var group := EncodeNode(MatchGroup(i, ssid, rssi5g));
            && |group| >= NLA_HDRLEN && BytesReadable(group[NLA_HDRLEN..], NL80211_SCHED_SCAN_MATCH_ATTR_SSID)
            && FindBytes(group[NLA_HDRLEN..], NL80211_SCHED_SCAN_MATCH_ATTR_SSID) == Some(ssid)
            && FindUInt(group[NLA_HDRLEN..], NL80211_SCHED_SCAN_MATCH_ATTR_RSSI, 4) == Some(UInt32(rssi5g))
  {
    var kids := MatchGroup(i, ssid, rssi5g).kids;
    EncodeReads(ToAttr(MatchGroup(i, ssid, rssi5g)));
    NestedBody(MatchGroup(i, ssid, rssi5g));
    FindBytesChild(kids, NL80211_SCHED_SCAN_MATCH_ATTR_SSID, ssid);
    Pow256Of4();
    FindUIntChild(kids, NL80211_SCHED_SCAN_MATCH_ATTR_RSSI, UInt32(rssi5g), 4);
  }

  /** An entry of the list of plans that holds both the interval, in seconds, and the iterations. */
  predicate ReadsAsPlan(entry: Buffer, plan: ScanPlan) {
    && |entry| >= NLA_HDRLEN
    && FindUInt(entry[NLA_HDRLEN..], NL80211_SCHED_SCAN_PLAN_INTERVAL, 4) == Some(plan.intervalMs / MSEC_PER_SEC)
    && FindUInt(entry[NLA_HDRLEN..], NL80211_SCHED_SCAN_PLAN_ITERATIONS, 4) == Some(plan.nIterations)
  }

  /** The entry that runs for ever: an interval and no iterations. */
  predicate ReadsAsLastPlan(entry: Buffer, intervalMs: nat) {
    && |entry| >= NLA_HDRLEN
    && FindUInt(entry[NLA_HDRLEN..], NL80211_SCHED_SCAN_PLAN_INTERVAL, 4) == Some(intervalMs / MSEC_PER_SEC)
    && Find(entry[NLA_HDRLEN..], NL80211_SCHED_SCAN_PLAN_ITERATIONS) == None
  }

  lemma {:induction false} DecodesPlan(i: nat, plan: ScanPlan)
    requires FitsTree(PlanNode(i, plan)) && plan.intervalMs < U32_SIZE && plan.nIterations < U32_SIZE
    ensures ReadsAsPlan(EncodeNode(PlanNode(i, plan)), plan)
  {
    var kids := PlanNode(i, plan).kids;
    EncodeReads(ToAttr(PlanNode(i, plan)));
    NestedBody(PlanNode(i, plan));
    Pow256Of4();
    FindUIntChild(kids, NL80211_SCHED_SCAN_PLAN_INTERVAL, plan.intervalMs / MSEC_PER_SEC, 4);
    FindUIntChild(kids, NL80211_SCHED_SCAN_PLAN_ITERATIONS, plan.nIterations, 4);
  }

  lemma {:induction false} DecodesLastPlan(setting: IntervalSetting)
    requires FitsTree(LastPlanNode(setting)) && setting.finalIntervalMs < U32_SIZE
    ensures ReadsAsLastPlan(EncodeNode(LastPlanNode(setting)), setting.finalIntervalMs)
  {
    var n := LastPlanNode(setting);
    EncodeReads(ToAttr(n));
    NestedBody(n);
    Pow256Of4();
    FindUIntChild(n.kids, NL80211_SCHED_SCAN_PLAN_INTERVAL, setting.finalIntervalMs / MSEC_PER_SEC, 4);
    FindChild(n.kids, NL80211_SCHED_SCAN_PLAN_ITERATIONS);
  }

  /** Exactly one of the scan plans and the single interval is present. */
  lemma {:induction false} PlansExcludeInterval(r: Request)
    requires FitsRequest(r)
    ensures Find(Body(r), NL80211_ATTR_SCHED_SCAN_PLANS).Some? <==> r.interval.plans != []
    ensures Find(Body(r), NL80211_ATTR_SCHED_SCAN_INTERVAL).Some? <==> r.interval.plans == []
    ensures r.interval.plans == [] ==>
              FindUInt(Body(r), NL80211_ATTR_SCHED_SCAN_INTERVAL, 4) == Some(r.interval.finalIntervalMs)
  {
    RequestLookup(r, NL80211_ATTR_SCHED_SCAN_PLANS);
    RequestLookup(r, NL80211_ATTR_SCHED_SCAN_INTERVAL);
    FindChild(RequestNodes(r), NL80211_ATTR_SCHED_SCAN_PLANS);
    FindChild(RequestNodes(r), NL80211_ATTR_SCHED_SCAN_INTERVAL);
    if r.interval.plans == [] {
      Pow256Of4();
      FindUIntChild(RequestNodes(r), NL80211_ATTR_SCHED_SCAN_INTERVAL, r.interval.finalIntervalMs, 4);
    }
  }

  /** With plans there is one entry more than plans; each but the last has iterations, and the last has none. */
  lemma {:induction false} DecodesPlans(r: Request)
    requires FitsRequest(r) && r.interval.plans != []
    ensures var plans := r.interval.plans;
            var found := Find(Body(r), NL80211_ATTR_SCHED_SCAN_PLANS);
            && found.Some? && |found.value| >= NLA_HDRLEN
            && var list := Slices(found.value[NLA_HDRLEN..]);
               && WellFormed(found.value[NLA_HDRLEN..]) && |list| == |plans| + 1
               && (forall i :: 0 <= i < |plans| ==> ReadsAsPlan(list[i], plans[i]))
               && ReadsAsLastPlan(list[|plans|], r.interval.finalIntervalMs)
  {
    var n := IntervalNode(r.interval);
    RequestLookup(r, NL80211_ATTR_SCHED_SCAN_PLANS);
    FindNested(r, n);
    assert FitsTree(n.kids[|r.interval.plans|]);
    DecodesLastPlan(r.interval);
    forall i | 0 <= i < |r.interval.plans|
      ensures ReadsAsPlan(EncodeNode(n.kids[i]), r.interval.plans[i])
    {
      assert FitsTree(n.kids[i]);
      DecodesPlan(i, r.interval.plans[i]);
    }
  }

  lemma {:induction false} FlagValues()
    ensures BitOr(0, NL80211_SCAN_FLAG_RANDOM_ADDR) == 8
    ensures BitOr(0, NL80211_SCAN_FLAG_LOW_POWER) == 512
    ensures BitOr(8, NL80211_SCAN_FLAG_LOW_POWER) == 520
  {
    assert BitOr(0, 2) == 2;
    assert BitOr(0, 4) == 4;
    assert BitOr(0, 8) == 8;
    assert BitOr(0, 16) == 16;
    assert BitOr(0, 32) == 32;
    assert BitOr(0, 64) == 64;
    assert BitOr(0, 128) == 128;
    assert BitOr(0, 256) == 256;
    assert BitOr(1, 64) == 65;
    assert BitOr(2, 128) == 130;
    assert BitOr(4, 256) == 260;
  }

  /** The flags ask for a random address and for low power exactly as requested; without either there are none. */
  lemma {:induction false} DecodesFlags(r: Request)
    requires FitsRequest(r)
    ensures FindUInt(Body(r), NL80211_ATTR_SCAN_FLAGS, 4) ==
            if !r.requestRandomMac && !r.requestLowPower then None
            else Some((if r.requestRandomMac then NL80211_SCAN_FLAG_RANDOM_ADDR else 0)
                      + (if r.requestLowPower then NL80211_SCAN_FLAG_LOW_POWER else 0))
  {
    FlagValues();
    RequestLookup(r, NL80211_ATTR_SCAN_FLAGS);
    if ScanFlags(r) == 0 {
      FindChild(RequestNodes(r), NL80211_ATTR_SCAN_FLAGS);
    } else {
      Pow256Of4();
      FindUIntChild(RequestNodes(r), NL80211_ATTR_SCAN_FLAGS, ScanFlags(r), 4);
    }
  }
}
