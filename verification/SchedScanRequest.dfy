/**
 The request that starts a scheduled scan (scanning/scan_utils.cpp, StartScheduledScan), and what its
 receiver reads out of it with the same getters.
 */
module SchedScanRequest {
  import opened Bytes
  import opened AttributeFormat
  import opened AttributeTree
  import opened Nl80211Attribute
  import opened Nl80211Packet
  import opened PnoRequest

  const NL80211_CMD_START_SCHED_SCAN: nat := 75
  const NL80211_ATTR_IFINDEX: nat := 3
  const NL80211_ATTR_SCAN_FREQUENCIES: nat := 44
  const NL80211_ATTR_SCAN_SSIDS: nat := 45
  const NL80211_ATTR_SCHED_SCAN_INTERVAL: nat := 119
  const NL80211_ATTR_SCHED_SCAN_MATCH: nat := 132
  const NL80211_ATTR_SCAN_FLAGS: nat := 158
  const NL80211_ATTR_SCHED_SCAN_PLANS: nat := 225
  const NL80211_ATTR_SCHED_SCAN_RSSI_ADJUST: nat := 247
  const NL80211_SCHED_SCAN_MATCH_ATTR_SSID: nat := 1
  const NL80211_SCHED_SCAN_MATCH_ATTR_RSSI: nat := 2
  const NL80211_SCHED_SCAN_PLAN_INTERVAL: nat := 1
  const NL80211_SCHED_SCAN_PLAN_ITERATIONS: nat := 2
  const NL80211_BAND_2GHZ: u8 := 0
  const NL80211_SCAN_FLAG_RANDOM_ADDR: nat := 8
  const NL80211_SCAN_FLAG_LOW_POWER: nat := 512

  datatype Request = Request(
    interfaceIndex: nat, interval: IntervalSetting, rssi2g: int, rssi5g: int,
    requestRandomMac: bool, requestLowPower: bool,
    scanSsids: seq<Ssid>, matchSsids: seq<Ssid>, freqs: seq<nat>)

  function U32Leaf(id: nat, value: nat): Node {
    Leaf(id, LittleEndian(value, 4))
  }

  function SsidLeaves(ssids: seq<Ssid>): (nodes: seq<Node>)
    ensures |nodes| == |ssids|
    ensures forall i :: 0 <= i < |ssids| ==> nodes[i] == Leaf(i, ssids[i])
  {
    seq(|ssids|, i requires 0 <= i < |ssids| => Leaf(i, ssids[i]))
  }

  function FreqLeaves(freqs: seq<nat>): (nodes: seq<Node>)
    ensures |nodes| == |freqs|
    ensures forall i :: 0 <= i < |freqs| ==> nodes[i] == U32Leaf(i, freqs[i])
  {
    seq(|freqs|, i requires 0 <= i < |freqs| => U32Leaf(i, freqs[i]))
  }

  function MatchGroup(i: nat, ssid: Ssid, rssi5g: int): Node {
    Nest(i, [Leaf(NL80211_SCHED_SCAN_MATCH_ATTR_SSID, ssid), U32Leaf(NL80211_SCHED_SCAN_MATCH_ATTR_RSSI, UInt32(rssi5g))])
  }

  function MatchGroups(ssids: seq<Ssid>, rssi5g: int): (nodes: seq<Node>)
    ensures |nodes| == |ssids|
    ensures forall i :: 0 <= i < |ssids| ==> nodes[i] == MatchGroup(i, ssids[i], rssi5g)
  {
    seq(|ssids|, i requires 0 <= i < |ssids| => MatchGroup(i, ssids[i], rssi5g))
  }

  function PlanNode(i: nat, plan: ScanPlan): Node {
    Nest(i + 1, [U32Leaf(NL80211_SCHED_SCAN_PLAN_INTERVAL, plan.intervalMs / MSEC_PER_SEC),
                 U32Leaf(NL80211_SCHED_SCAN_PLAN_ITERATIONS, plan.nIterations)])
  }

  function PlanNodes(plans: seq<ScanPlan>): (nodes: seq<Node>)
    ensures |nodes| == |plans|
    ensures forall i :: 0 <= i < |plans| ==> nodes[i] == PlanNode(i, plans[i])
  {
    seq(|plans|, i requires 0 <= i < |plans| => PlanNode(i, plans[i]))
  }

  function LastPlanNode(setting: IntervalSetting): Node {
    Nest(|setting.plans| + 1, [U32Leaf(NL80211_SCHED_SCAN_PLAN_INTERVAL, setting.finalIntervalMs / MSEC_PER_SEC)])
  }

  function IntervalNode(setting: IntervalSetting): Node {
    if setting.plans != [] then
      Nest(NL80211_ATTR_SCHED_SCAN_PLANS, PlanNodes(setting.plans) + [LastPlanNode(setting)])
    else U32Leaf(NL80211_ATTR_SCHED_SCAN_INTERVAL, setting.finalIntervalMs)
  }

  /** struct nl80211_bss_select_rssi_adjust: the band and a signed byte. */
  function RssiAdjust(rssi2g: int, rssi5g: int): Buffer {
    [NL80211_BAND_2GHZ, ((rssi2g - rssi5g) % 256) as u8]
  }

  function ScanFlags(r: Request): nat {
    var flags := if r.requestRandomMac then BitOr(0, NL80211_SCAN_FLAG_RANDOM_ADDR) else 0;
    if r.requestLowPower then BitOr(flags, NL80211_SCAN_FLAG_LOW_POWER) else flags
  }

  /** The attributes of the request, in the order in which they are appended. */
  function RequestNodes(r: Request): seq<Node> {
    FixedNodes(r) + FreqPart(r) + [IntervalNode(r.interval)] + FlagsPart(r)
  }

  function FixedNodes(r: Request): seq<Node> {
    [Nest(NL80211_ATTR_SCHED_SCAN_MATCH, MatchGroups(r.matchSsids, r.rssi5g)),
     Leaf(NL80211_ATTR_SCHED_SCAN_RSSI_ADJUST, RssiAdjust(r.rssi2g, r.rssi5g)),
     U32Leaf(NL80211_ATTR_IFINDEX, r.interfaceIndex),
     Nest(NL80211_ATTR_SCAN_SSIDS, SsidLeaves(r.scanSsids))]
  }

  function FreqPart(r: Request): seq<Node> {
    if r.freqs == [] then [] else [Nest(NL80211_ATTR_SCAN_FREQUENCIES, FreqLeaves(r.freqs))]
  }

  function FlagsPart(r: Request): seq<Node> {
    if ScanFlags(r) == 0 then [] else [U32Leaf(NL80211_ATTR_SCAN_FLAGS, ScanFlags(r))]
  }

  function RequestHeader(familyId: nat, sequence: nat, pid: nat): Header {
    Header(familyId, BitOr(NLM_F_REQUEST, NLM_F_ACK), sequence, pid, NL80211_CMD_START_SCHED_SCAN)
  }

  // ---- building ----

  lemma {:induction false} AppendNode(id: nat, kids: seq<Node>, child: Node)
    ensures |EncodeNode(Nest(id, kids))| >= NLA_HDRLEN
    ensures WithChild(EncodeNode(Nest(id, kids)), EncodeNode(child)) == EncodeNode(Nest(id, kids + [child]))
  {
    EncodeOne(child);
    EncodedIsAligned(ToAttrs(kids));
    NodesAppend(kids, [child]);
    EncodeReads(ToAttr(Nest(id, kids)));
    AppendChild(id, EncodeNodes(kids), EncodeNode(child));
  }

  lemma {:induction false} AppendPacketNode(h: Header, nodes: seq<Node>, n: Node)
    ensures Extended(EncodePacket(h, EncodeNodes(nodes)), EncodeNode(n)) == EncodePacket(h, EncodeNodes(nodes + [n]))
  {
    EncodeOne(n);
    NodesAppend(nodes, [n]);
    AppendToPacket(h, EncodeNodes(nodes), EncodeNode(n));
  }

  /** A packet without attributes that differs from an encoded one in its flags encodes the header with those. */
  lemma {:induction false} FlagPacket(h: Header, after: Buffer)
    requires OnlyFlagsChanged(EncodePacket(h, []), after)
    ensures after == EncodePacket(h.(flags := Flags(after)), [])
  {
    FlagsDetermine(EncodePacket(h, []), after);
    EmptyPacket(h);
    EmptyPacket(h.(flags := Flags(after)));
  }

  method SsidsAttr(id: nat, ssids: seq<Ssid>) returns (attr: NL80211Attr)
    ensures fresh(attr) && attr.data == EncodeNode(Nest(id, SsidLeaves(ssids)))
  {
    attr := new NL80211Attr.Nested(id);
    EncodeEmpty(id);
    assert SsidLeaves(ssids[..0]) == [];
    for i := 0 to |ssids|
      invariant fresh(attr) && attr.data == EncodeNode(Nest(id, SsidLeaves(ssids[..i])))
    {
      var child := new NL80211Attr.Raw(i, ssids[i]);
      AppendNode(id, SsidLeaves(ssids[..i]), Leaf(i, ssids[i]));
      assert SsidLeaves(ssids[..i + 1]) == SsidLeaves(ssids[..i]) + [Leaf(i, ssids[i])];
      attr.AddAttribute(child);
    }
    assert ssids[..|ssids|] == ssids;
  }

  method FreqsAttr(freqs: seq<nat>) returns (attr: NL80211Attr)
    ensures fresh(attr) && attr.data == EncodeNode(Nest(NL80211_ATTR_SCAN_FREQUENCIES, FreqLeaves(freqs)))
  {
    attr := new NL80211Attr.Nested(NL80211_ATTR_SCAN_FREQUENCIES);
    EncodeEmpty(NL80211_ATTR_SCAN_FREQUENCIES);
    assert FreqLeaves(freqs[..0]) == [];
    for i := 0 to |freqs|
      invariant fresh(attr) && attr.data == EncodeNode(Nest(NL80211_ATTR_SCAN_FREQUENCIES, FreqLeaves(freqs[..i])))
    {
      var child := new NL80211Attr.Integral(i, freqs[i], 4);
      AppendNode(NL80211_ATTR_SCAN_FREQUENCIES, FreqLeaves(freqs[..i]), U32Leaf(i, freqs[i]));
      assert FreqLeaves(freqs[..i + 1]) == FreqLeaves(freqs[..i]) + [U32Leaf(i, freqs[i])];
      attr.AddAttribute(child);
    }
    assert freqs[..|freqs|] == freqs;
  }

  /** A nested attribute with one child. */
  method SingleAttr(id: nat, child: NL80211Attr, ghost n: Node) returns (attr: NL80211Attr)
    requires child.data == EncodeNode(n)
    ensures fresh(attr) && attr.data == EncodeNode(Nest(id, [n]))
  {
    attr := new NL80211Attr.Nested(id);
    EncodeEmpty(id);
    AppendNode(id, [], n);
    attr.AddAttribute(child);
    assert [] + [n] == [n];
  }

  /** A nested attribute with two children. */
  method PairAttr(id: nat, first: NL80211Attr, second: NL80211Attr, ghost a: Node, ghost b: Node)
    returns (attr: NL80211Attr)
    requires first.data == EncodeNode(a) && second.data == EncodeNode(b)
    ensures fresh(attr) && attr.data == EncodeNode(Nest(id, [a, b]))
  {
    attr := SingleAttr(id, first, a);
    AppendNode(id, [a], b);
    attr.AddAttribute(second);
    assert [a] + [b] == [a, b];
  }

  method MatchAttr(ssids: seq<Ssid>, rssi5g: int) returns (attr: NL80211Attr)
    ensures fresh(attr) && attr.data == EncodeNode(Nest(NL80211_ATTR_SCHED_SCAN_MATCH, MatchGroups(ssids, rssi5g)))
  {
    attr := new NL80211Attr.Nested(NL80211_ATTR_SCHED_SCAN_MATCH);
    EncodeEmpty(NL80211_ATTR_SCHED_SCAN_MATCH);
    assert MatchGroups(ssids[..0], rssi5g) == [];
    for i := 0 to |ssids|
      invariant fresh(attr)
      invariant attr.data == EncodeNode(Nest(NL80211_ATTR_SCHED_SCAN_MATCH, MatchGroups(ssids[..i], rssi5g)))
    {
      var ssid := new NL80211Attr.Raw(NL80211_SCHED_SCAN_MATCH_ATTR_SSID, ssids[i]);
      var rssi := new NL80211Attr.Integral(NL80211_SCHED_SCAN_MATCH_ATTR_RSSI, UInt32(rssi5g), 4);
      ghost var a, b := Leaf(NL80211_SCHED_SCAN_MATCH_ATTR_SSID, ssids[i]), U32Leaf(NL80211_SCHED_SCAN_MATCH_ATTR_RSSI, UInt32(rssi5g));
      var group := PairAttr(i, ssid, rssi, a, b);
      AppendNode(NL80211_ATTR_SCHED_SCAN_MATCH, MatchGroups(ssids[..i], rssi5g), MatchGroup(i, ssids[i], rssi5g));
      assert MatchGroups(ssids[..i + 1], rssi5g) == MatchGroups(ssids[..i], rssi5g) + [MatchGroup(i, ssids[i], rssi5g)];
      attr.AddAttribute(group);
    }
    assert ssids[..|ssids|] == ssids;
  }

  method PlansAttr(setting: IntervalSetting) returns (attr: NL80211Attr)
    requires setting.plans != []
    ensures fresh(attr) && attr.data == EncodeNode(IntervalNode(setting))
  {
    var plans := setting.plans;
    attr := new NL80211Attr.Nested(NL80211_ATTR_SCHED_SCAN_PLANS);
    EncodeEmpty(NL80211_ATTR_SCHED_SCAN_PLANS);
    assert PlanNodes(plans[..0]) == [];
    for i := 0 to |plans|
      invariant fresh(attr) && attr.data == EncodeNode(Nest(NL80211_ATTR_SCHED_SCAN_PLANS, PlanNodes(plans[..i])))
    {
      var interval := new NL80211Attr.Integral(NL80211_SCHED_SCAN_PLAN_INTERVAL, plans[i].intervalMs / MSEC_PER_SEC, 4);
      var iterations := new NL80211Attr.Integral(NL80211_SCHED_SCAN_PLAN_ITERATIONS, plans[i].nIterations, 4);
      ghost var a := U32Leaf(NL80211_SCHED_SCAN_PLAN_INTERVAL, plans[i].intervalMs / MSEC_PER_SEC);
      ghost var b := U32Leaf(NL80211_SCHED_SCAN_PLAN_ITERATIONS, plans[i].nIterations);
      var plan := PairAttr(i + 1, interval, iterations, a, b);
      AppendNode(NL80211_ATTR_SCHED_SCAN_PLANS, PlanNodes(plans[..i]), PlanNode(i, plans[i]));
      assert PlanNodes(plans[..i + 1]) == PlanNodes(plans[..i]) + [PlanNode(i, plans[i])];
      attr.AddAttribute(plan);
    }
    assert plans[..|plans|] == plans;
    var final := new NL80211Attr.Integral(NL80211_SCHED_SCAN_PLAN_INTERVAL, setting.finalIntervalMs / MSEC_PER_SEC, 4);
    ghost var f := U32Leaf(NL80211_SCHED_SCAN_PLAN_INTERVAL, setting.finalIntervalMs / MSEC_PER_SEC);
    var last := SingleAttr(|plans| + 1, final, f);
    AppendNode(NL80211_ATTR_SCHED_SCAN_PLANS, PlanNodes(plans), LastPlanNode(setting));
    attr.AddAttribute(last);
  }

  /** Appends an attribute to a packet, and keeps the account of the attributes it has. */
  method AddNode(packet: NL80211Packet, attr: NL80211Attr, ghost h: Header, ghost nodes: seq<Node>, ghost n: Node)
    requires packet.data == EncodePacket(h, EncodeNodes(nodes)) && attr.data == EncodeNode(n)
    modifies packet
    ensures packet.data == EncodePacket(h, EncodeNodes(nodes + [n]))
  {
    AppendPacketNode(h, nodes, n);
    packet.AddAttribute(attr);
  }

  /** The attributes every request has. */
  method AddFixed(packet: NL80211Packet, scanSsidsAttr: NL80211Attr, r: Request, ghost h: Header)
    requires packet.data == EncodePacket(h, []) && scanSsidsAttr.data == EncodeNode(Nest(NL80211_ATTR_SCAN_SSIDS, SsidLeaves(r.scanSsids)))
    modifies packet
    ensures packet.data == EncodePacket(h, EncodeNodes(FixedNodes(r)))
  {
    ghost var nodes := FixedNodes(r);
    EncodeEmpty(0);
    var matchAttr := MatchAttr(r.matchSsids, r.rssi5g);
    AddNode(packet, matchAttr, h, [], nodes[0]);
    assert [] + [nodes[0]] == nodes[..1];
    var rssiAdjustAttr := new NL80211Attr.Raw(NL80211_ATTR_SCHED_SCAN_RSSI_ADJUST, RssiAdjust(r.rssi2g, r.rssi5g));
    AddNode(packet, rssiAdjustAttr, h, nodes[..1], nodes[1]);
    assert nodes[..1] + [nodes[1]] == nodes[..2];
    var ifIndexAttr := new NL80211Attr.Integral(NL80211_ATTR_IFINDEX, r.interfaceIndex, 4);
    AddNode(packet, ifIndexAttr, h, nodes[..2], nodes[2]);
    assert nodes[..2] + [nodes[2]] == nodes[..3];
    AddNode(packet, scanSsidsAttr, h, nodes[..3], nodes[3]);
    assert nodes[..3] + [nodes[3]] == nodes;
  }

  /** The scan plans, or the single interval, but never both. */
  method AddInterval(packet: NL80211Packet, setting: IntervalSetting, ghost h: Header, ghost nodes: seq<Node>)
    requires packet.data == EncodePacket(h, EncodeNodes(nodes))
    modifies packet
    ensures packet.data == EncodePacket(h, EncodeNodes(nodes + [IntervalNode(setting)]))
  {
    if setting.plans != [] {
      var plansAttr := PlansAttr(setting);
      AddNode(packet, plansAttr, h, nodes, IntervalNode(setting));
    } else {
      var intervalAttr := new NL80211Attr.Integral(NL80211_ATTR_SCHED_SCAN_INTERVAL, setting.finalIntervalMs, 4);
      AddNode(packet, intervalAttr, h, nodes, IntervalNode(setting));
    }
  }

  method AddFlags(packet: NL80211Packet, r: Request, ghost h: Header, ghost nodes: seq<Node>)
    requires packet.data == EncodePacket(h, EncodeNodes(nodes))
    modifies packet
    ensures packet.data == EncodePacket(h, EncodeNodes(nodes + FlagsPart(r)))
  {
    var scanFlags := 0;
    if r.requestRandomMac {
      scanFlags := BitOr(scanFlags, NL80211_SCAN_FLAG_RANDOM_ADDR);
    }
    if r.requestLowPower {
      scanFlags := BitOr(scanFlags, NL80211_SCAN_FLAG_LOW_POWER);
    }
    if scanFlags != 0 {
      var flagsAttr := new NL80211Attr.Integral(NL80211_ATTR_SCAN_FLAGS, scanFlags, 4);
      AddNode(packet, flagsAttr, h, nodes, U32Leaf(NL80211_ATTR_SCAN_FLAGS, scanFlags));
    } else {
      assert nodes + [] == nodes;
    }
  }

  /** Builds the packet that StartScheduledScan sends. */
  method BuildStartScheduledScan(r: Request, familyId: nat, sequence: nat, pid: nat) returns (packet: NL80211Packet)
    requires familyId < U16_SIZE && sequence < U32_SIZE && pid < U32_SIZE
    ensures fresh(packet)
    ensures packet.data == EncodePacket(RequestHeader(familyId, sequence, pid), EncodeNodes(RequestNodes(r)))
  {
    packet := new NL80211Packet(familyId, NL80211_CMD_START_SCHED_SCAN, sequence, pid);
    packet.AddFlag(NLM_F_ACK);
    ghost var h := RequestHeader(familyId, sequence, pid);
    HeaderReads(h.(flags := NLM_F_REQUEST), []);
    FlagPacket(h.(flags := NLM_F_REQUEST), packet.data);
    var scanSsidsAttr := SsidsAttr(NL80211_ATTR_SCAN_SSIDS, r.scanSsids);
    var freqsAttr := FreqsAttr(r.freqs);
    AddFixed(packet, scanSsidsAttr, r, h);
    ghost var fixed := FixedNodes(r);
    if r.freqs != [] {
      AddNode(packet, freqsAttr, h, fixed, Nest(NL80211_ATTR_SCAN_FREQUENCIES, FreqLeaves(r.freqs)));
    } else {
      assert fixed + [] == fixed;
    }
    AddInterval(packet, r.interval, h, fixed + FreqPart(r));
    AddFlags(packet, r, h, fixed + FreqPart(r) + [IntervalNode(r.interval)]);
  }
}
