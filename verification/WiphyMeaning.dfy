/**
 What GetWiphyInfo reports, in terms of what the kernel put into its packet: which frequency goes to which list,
 which attribute is which limit, and which bit is which feature (net/netlink_utils.cpp).
 */
module WiphyMeaning {
  import opened Bytes
  import opened Filters
  import opened AttributeFormat
  import opened AttributeTree
  import opened Nl80211Packet
  import opened SplitWiphyDump
  import opened WiphyInfo
  import opened SplitRefinement

  // ---- frequencies ----

  /** The payload of the first child with an id. */
  function Child(n: Node, id: nat): Option<Buffer> {
    if n.Nest? then Lookup(ToAttrs(n.kids), id) else None
  }

  /** The 32-bit integer in the first child with an id, if that is one. */
  function ChildUInt(n: Node, id: nat): Option<nat> {
    match Child(n, id)
    case None => None
    case Some(p) => if |p| == 4 then Some(Value(p)) else None
  }

  /** In enum nl80211_frequency_attr, 1 is the frequency in MHz. */
  function FreqOf(n: Node): nat {
    ChildUInt(n, 1).GetOr(0)
  }

  /** 2 marks a frequency that is disabled. */
  predicate Enabled(n: Node) {
    ChildUInt(n, 1).Some? && Child(n, 2) == None
  }

  /** 7 is the DFS state, of which 0 is usable and 2 available; 3 marks a frequency on which nothing may be sent first. */
  predicate DfsOrPassive(n: Node) {
    ChildUInt(n, 7) == Some(0) || ChildUInt(n, 7) == Some(2) || Child(n, 3).Some?
  }

  predicate In2g(n: Node) {
    Enabled(n) && 2400 < FreqOf(n) < 2500
  }

  predicate In5g(n: Node) {
    Enabled(n) && 5000 < FreqOf(n) < 5850 && !DfsOrPassive(n)
  }

  predicate InDfs(n: Node) {
    Enabled(n) && 5000 < FreqOf(n) < 5850 && DfsOrPassive(n)
  }

  lemma {:induction false} ReadsChild(n: Node, id: nat)
    requires n.Nest? && FitsTree(n)
    ensures FindUInt(EncodeNode(n)[NLA_HDRLEN..], id, 4) == ChildUInt(n, id)
    ensures Found(EncodeNode(n)[NLA_HDRLEN..], id).Some? <==> Child(n, id).Some?
  {
    NestedBody(n);
    FindUIntInEncoded(ToAttrs(n.kids), id, 4);
    FindInEncoded(ToAttrs(n.kids), id);
    EncodedIsWellFormed(ToAttrs(n.kids));
    SearchesEnd(EncodeNodes(n.kids));
  }

  lemma {:induction false} ReadsFrequency(n: Node)
    requires n.Nest? && FitsTree(n)
    ensures ChannelOf(EncodeNode(n)[NLA_HDRLEN..]) ==
            if In2g(n) then Band2g(FreqOf(n)) else if InDfs(n) then Dfs(FreqOf(n))
            else if In5g(n) then Band5g(FreqOf(n)) else Ignored
  {
    ReadsChild(n, 1);
    ReadsChild(n, 2);
    ReadsChild(n, 3);
    ReadsChild(n, 7);
  }

  /** The entries of the frequency lists of all bands, in order; in enum nl80211_band_attr, 1 is that list. */
  function FreqEntries(bands: seq<Node>): seq<Node> {
    if bands == [] then []
    else
      var last := bands[|bands| - 1];
      var list := if last.Nest? then FirstChild(last.kids, 1) else None;
      FreqEntries(bands[..|bands| - 1]) + if list.Some? && list.value.Nest? then list.value.kids else []
  }

  lemma {:induction false} FreqEntriesAre(bands: seq<Node>)
    ensures FreqEntries(bands) == AllFreqNodes(bands)
  {
    if bands != [] {
      FreqEntriesAre(bands[..|bands| - 1]);
    }
  }

  lemma {:induction false} EncodeEachSnoc(nodes: seq<Node>, n: Node)
    ensures EncodeEach(nodes + [n]) == EncodeEach(nodes) + [EncodeNode(n)]
  {
  }

  lemma {:induction false} ReadsFrequencies(nodes: seq<Node>)
    requires AllFitTree(nodes) && TypedFreqs(nodes)
    ensures forall i :: 0 <= i < |EncodeEach(nodes)| ==> IsValid(EncodeEach(nodes)[i])
    ensures WithFreqs(NO_BANDS, EncodeEach(nodes)) ==
            BandInfo(Filtered(nodes, In2g, FreqOf), Filtered(nodes, In5g, FreqOf), Filtered(nodes, InDfs, FreqOf))
  {
    EncodeEachIsValid(nodes);
    if nodes != [] {
      var front, last := nodes[..|nodes| - 1], nodes[|nodes| - 1];
      ReadsFrequencies(front);
      FrontAndLast(nodes);
      EncodeEachSnoc(front, last);
      ReadsFrequency(last);
      assert EncodeEach(nodes)[..|nodes| - 1] == EncodeEach(front);
    }
  }

  lemma {:induction false} AllFreqNodesFit(bands: seq<Node>)
    requires TypedBands(bands) && AllFitTree(bands)
    ensures AllFitTree(AllFreqNodes(bands))
  {
    if bands != [] {
      var front, last := bands[..|bands| - 1], bands[|bands| - 1];
      AllFreqNodesFit(front);
      FreqNodesFit(last);
    }
  }

  /**
   The three lists hold the enabled frequencies of all bands: those of 2.4 GHz, those of 5 GHz that may be used freely,
   and the other ones of 5 GHz; each frequency entry once, and in order. Without bands there is no answer.
   */
  lemma {:induction false} BandsMeanFrequencies(attrs: seq<Attr>, bands: seq<Node>)
    requires AllFit(attrs) && TypedBands(bands) && AllFitTree(bands) && TypedFreqs(AllFreqNodes(bands))
    ensures Lookup(attrs, 22) == None ==> BandInfoIn(EncodeAll(attrs)) == None
    ensures Lookup(attrs, 22) == Some(EncodeNodes(bands)) ==>
              && BandInfoIn(EncodeAll(attrs)).Some?
              && var info, freqs := BandInfoIn(EncodeAll(attrs)).value, FreqEntries(bands);
                 && IsSelection(info.band2g, freqs, In2g, FreqOf)
                 && IsSelection(info.band5g, freqs, In5g, FreqOf)
                 && IsSelection(info.bandDfs, freqs, InDfs, FreqOf)
  {
    BandInfoOfEncoded(attrs);
    if Lookup(attrs, 22) == Some(EncodeNodes(bands)) {
      var freqs := AllFreqNodes(bands);
      FreqEntriesAre(bands);
      BandsLookupOfNodes(attrs, bands);
      BandsOfNodes(bands);
      FilteredIsSelection(freqs, In2g, FreqOf);
      FilteredIsSelection(freqs, In5g, FreqOf);
      FilteredIsSelection(freqs, InDfs, FreqOf);
    }
  }

  lemma {:induction false} BandsOfNodes(bands: seq<Node>)
    requires TypedBands(bands) && AllFitTree(bands) && TypedFreqs(AllFreqNodes(bands))
    ensures var freqs := AllFreqNodes(bands);
            BandsMeaning(EncodeNodes(bands)) ==
            Some(BandInfo(Filtered(freqs, In2g, FreqOf), Filtered(freqs, In5g, FreqOf), Filtered(freqs, InDfs, FreqOf)))
  {
    EncodedIsWellFormed(ToAttrs(bands));
    SlicesOfEncoded(ToAttrs(bands));
    FreqsOfEncodedBands(bands);
    AllFreqNodesFit(bands);
    ReadsFrequencies(AllFreqNodes(bands));
  }

  /** So a frequency is listed exactly if some entry of some band holds it and belongs there. */
  lemma {:induction false} ListedFrequencies(attrs: seq<Attr>, bands: seq<Node>, f: nat)
    requires AllFit(attrs) && TypedBands(bands) && AllFitTree(bands) && TypedFreqs(AllFreqNodes(bands))
    requires Lookup(attrs, 22) == Some(EncodeNodes(bands))
    ensures BandInfoIn(EncodeAll(attrs)).Some?
    ensures var info, freqs := BandInfoIn(EncodeAll(attrs)).value, FreqEntries(bands);
            && (f in info.band2g <==> exists i :: 0 <= i < |freqs| && In2g(freqs[i]) && FreqOf(freqs[i]) == f)
            && (f in info.band5g <==> exists i :: 0 <= i < |freqs| && In5g(freqs[i]) && FreqOf(freqs[i]) == f)
            && (f in info.bandDfs <==> exists i :: 0 <= i < |freqs| && InDfs(freqs[i]) && FreqOf(freqs[i]) == f)
  {
    var freqs := AllFreqNodes(bands);
    FreqEntriesAre(bands);
    BandInfoOfEncoded(attrs);
    BandsLookupOfNodes(attrs, bands);
    BandsOfNodes(bands);
    FilteredMembers(freqs, In2g, FreqOf, f);
    FilteredMembers(freqs, In5g, FreqOf, f);
    FilteredMembers(freqs, InDfs, FreqOf, f);
  }

  // ---- limits and features ----

  /** An unsigned integer of `width` bytes in the first attribute with an id. */
  function UIntOfAttr(attrs: seq<Attr>, id: nat, width: nat): Option<nat> {
    match Lookup(attrs, id)
    case None => None
    case Some(p) => if |p| == width then Some(Value(p)) else None
  }

  /**
   The limits, by their numbers in enum nl80211_attrs: three of 8 bits without which there is no answer, and three of
   32 bits that are zero if missing.
   */
  lemma {:induction false} LimitsMeanAttributes(attrs: seq<Attr>)
    requires AllFit(attrs)
    ensures var found := CapabilitiesIn(EncodeAll(attrs));
            && (found.Some? <==> UIntOfAttr(attrs, 43, 1).Some? && UIntOfAttr(attrs, 123, 1).Some? && UIntOfAttr(attrs, 133, 1).Some?)
            && (found.Some? ==>
                  && found.value.maxNumScanSsids == UIntOfAttr(attrs, 43, 1).value
                  && found.value.maxNumSchedScanSsids == UIntOfAttr(attrs, 123, 1).value
                  && found.value.maxMatchSets == UIntOfAttr(attrs, 133, 1).value
                  && found.value.maxNumScanPlans == UIntOfAttr(attrs, 222, 4).GetOr(0)
                  && found.value.maxScanPlanInterval == UIntOfAttr(attrs, 223, 4).GetOr(0)
                  && found.value.maxScanPlanIterations == UIntOfAttr(attrs, 224, 4).GetOr(0))
  {
    FindUIntInEncoded(attrs, 43, 1);
    FindUIntInEncoded(attrs, 123, 1);
    FindUIntInEncoded(attrs, 133, 1);
    FindUIntInEncoded(attrs, 222, 4);
    FindUIntInEncoded(attrs, 223, 4);
    FindUIntInEncoded(attrs, 224, 4);
  }

  /** Bit `n` of a string of bytes, as extended features are numbered. */
  predicate ByteBit(bytes: Buffer, n: nat) {
    n / 8 < |bytes| && Bit(bytes[n / 8] as int, n % 8)
  }

  lemma {:induction false} ExtFeatureIsBit(bytes: Buffer, n: nat)
    ensures IsExtFeatureFlagSet(bytes, n) <==> ByteBit(bytes, n)
  {
    if n / 8 < |bytes| {
      AndTestsBit(bytes[n / 8] as int, n % 8);
    }
  }

  lemma {:induction false} HighPowers()
    ensures Pow2(29) == 0x2000_0000 && Pow2(30) == 0x4000_0000
  {
    assert Pow2(8) == 256;
    assert Pow2(16) == 65536;
    assert Pow2(24) == 0x100_0000;
  }

  /**
   The features: bits 29 and 30 of the feature flags (attribute 143), without which there is no answer, and bits 22 to
   24 of the extended features (attribute 217), of which there may be none.
   */
  lemma {:induction false} FeaturesMeanBits(attrs: seq<Attr>)
    requires AllFit(attrs)
    ensures var found, flags, ext := FeaturesIn(EncodeAll(attrs)), UIntOfAttr(attrs, 143, 4), Lookup(attrs, 217).GetOr([]);
            && (found.Some? <==> flags.Some?)
            && (found.Some? ==>
                  && (found.value.supportsRandomMacOneshotScan <==> Bit(flags.value, 29))
                  && (found.value.supportsRandomMacSchedScan <==> Bit(flags.value, 30))
                  && (found.value.supportsLowSpanOneshotScan <==> ByteBit(ext, 22))
                  && (found.value.supportsLowPowerOneshotScan <==> ByteBit(ext, 23))
                  && (found.value.supportsHighAccuracyOneshotScan <==> ByteBit(ext, 24)))
  {
    FindUIntInEncoded(attrs, 143, 4);
    FindBytesInEncoded(attrs, 217);
    if UIntOfAttr(attrs, 143, 4).Some? {
      var flags := UIntOfAttr(attrs, 143, 4).value;
      HighPowers();
      AndTestsBit(flags, 29);
      AndTestsBit(flags, 30);
    }
    var ext := Lookup(attrs, 217).GetOr([]);
    ExtFeatureIsBit(ext, 22);
    ExtFeatureIsBit(ext, 23);
    ExtFeatureIsBit(ext, 24);
  }

  // ---- which packet answers, and with what ----

  /** A packet from which everything can be read: a NEW_WIPHY command (3) with bands, limits and features. */
  predicate Complete(data: Buffer)
    requires HasBody(data)
  {
    var body := data[HDRLEN..];
    data[16] == 3 && BandInfoIn(body).Some? && CapabilitiesIn(body).Some? && FeaturesIn(body).Some?
  }

  /** A parse succeeds exactly on such a packet; each output is written if all before it could be read. */
  lemma {:induction false} ParseReadsAll(data: Buffer, before: Info)
    requires HasBody(data)
    ensures var (ok, info) := Parsed(data, before);
            var body := data[HDRLEN..];
            && (ok <==> Complete(data))
            && info.bands == (if data[16] == 3 then BandInfoIn(body).GetOr(before.bands) else before.bands)
            && info.capabilities == (if data[16] == 3 && BandInfoIn(body).Some? then CapabilitiesIn(body).GetOr(before.capabilities)
                                     else before.capabilities)
            && info.features == (if ok then FeaturesIn(body).value else before.features)
  {
  }

  /** A complete packet of the wiphy. */
  predicate AnswersFor(data: Buffer, wiphy: nat)
    requires HasBody(data)
  {
    FindUInt(data[HDRLEN..], 1, 4) == Some(wiphy) && Complete(data)
  }

  /** The first complete packet of the wiphy gives all three outputs; without one there is no answer. */
  lemma {:induction false} FirstCompleteAnswers(datas: seq<Buffer>, wiphy: nat, before: Info) returns (k: nat)
    requires forall i :: 0 <= i < |datas| ==> HasBody(datas[i])
    ensures k <= |datas| && forall i :: 0 <= i < k ==> HasBody(datas[i]) && !AnswersFor(datas[i], wiphy)
    ensures Selected(datas, wiphy, before).0 <==> k < |datas|
    ensures k < |datas| ==>
              && HasBody(datas[k]) && AnswersFor(datas[k], wiphy)
              && Selected(datas, wiphy, before).1 == Info(BandInfoIn(datas[k][HDRLEN..]).value, CapabilitiesIn(datas[k][HDRLEN..]).value,
                                                          FeaturesIn(datas[k][HDRLEN..]).value)
  {
    if |datas| == 0 {
      k := 0;
    } else {
      assert HasBody(datas[0]);
      ParseReadsAll(datas[0], before);
      if AnswersFor(datas[0], wiphy) {
        k := 0;
      } else {
        var after := if WiphyOf(datas[0][HDRLEN..]) == Some(wiphy) then Parsed(datas[0], before).1 else before;
        var j := FirstCompleteAnswers(datas[1..], wiphy, after);
        k := j + 1;
        forall i | 0 <= i < k
          ensures HasBody(datas[i]) && !AnswersFor(datas[i], wiphy)
        {
          if i > 0 {
            assert datas[i] == datas[1..][i - 1];
          }
        }
        if k < |datas| {
          assert datas[k] == datas[1..][j];
        }
      }
    }
  }
}
