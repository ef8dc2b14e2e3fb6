/**
 Reading a split dump means the same as reading the packet it was split from, wherever it was cut
 (net/netlink_utils.cpp, GetWiphyInfo with and without the split-dump feature).
 */
module SplitRefinement {
  import opened Bytes
  import opened AttributeFormat
  import opened AttributeTree
  import opened Nl80211Packet
  import opened SplitWiphyDump
  import opened WiphyInfo

  // ---- parsing depends only on lookups ----

  /** Two attribute lists that the parsers cannot tell apart. */
  ghost predicate SameMeaning(xs: seq<Attr>, ys: seq<Attr>) {
    && (forall id: nat :: id != NL80211_ATTR_WIPHY_BANDS && !IsFilter(id) ==> Lookup(xs, id) == Lookup(ys, id))
    && BandsLookup(xs) == BandsLookup(ys)
  }

  /** What the bands attribute of a list means: None without one, Some(None) if it is unreadable. */
  function BandsLookup(attrs: seq<Attr>): Option<Option<BandInfo>> {
    match Lookup(attrs, NL80211_ATTR_WIPHY_BANDS)
    case None => None
    case Some(p) => Some(BandsMeaning(p + Zeros(NlaAlign(|p|) - |p|)))
  }

  lemma {:induction false} BandInfoOfEncoded(attrs: seq<Attr>)
    requires AllFit(attrs)
    ensures BandInfoIn(EncodeAll(attrs)) == match BandsLookup(attrs) case None => None case Some(m) => m
  {
    FindInEncoded(attrs, NL80211_ATTR_WIPHY_BANDS);
    if Lookup(attrs, NL80211_ATTR_WIPHY_BANDS).Some? {
      var p := Lookup(attrs, NL80211_ATTR_WIPHY_BANDS).value;
      assert Encode(Attr(NL80211_ATTR_WIPHY_BANDS, p))[NLA_HDRLEN..] == p + Zeros(NlaAlign(|p|) - |p|);
    }
  }

  lemma {:induction false} SameUInt(xs: seq<Attr>, ys: seq<Attr>, id: nat, width: nat)
    requires AllFit(xs) && AllFit(ys) && SameMeaning(xs, ys)
    requires id != NL80211_ATTR_WIPHY_BANDS && !IsFilter(id)
    ensures FindUInt(EncodeAll(xs), id, width) == FindUInt(EncodeAll(ys), id, width)
  {
    FindUIntInEncoded(xs, id, width);
    FindUIntInEncoded(ys, id, width);
  }

  lemma {:induction false} SameCapabilities(xs: seq<Attr>, ys: seq<Attr>)
    requires AllFit(xs) && AllFit(ys) && SameMeaning(xs, ys)
    ensures CapabilitiesIn(EncodeAll(xs)) == CapabilitiesIn(EncodeAll(ys))
  {
    SameUInt(xs, ys, NL80211_ATTR_MAX_NUM_SCAN_SSIDS, 1);
    SameUInt(xs, ys, NL80211_ATTR_MAX_NUM_SCHED_SCAN_SSIDS, 1);
    SameUInt(xs, ys, NL80211_ATTR_MAX_MATCH_SETS, 1);
    SameUInt(xs, ys, NL80211_ATTR_MAX_NUM_SCHED_SCAN_PLANS, 4);
    SameUInt(xs, ys, NL80211_ATTR_MAX_SCAN_PLAN_INTERVAL, 4);
    SameUInt(xs, ys, NL80211_ATTR_MAX_SCAN_PLAN_ITERATIONS, 4);
  }

  lemma {:induction false} SameFeatures(xs: seq<Attr>, ys: seq<Attr>)
    requires AllFit(xs) && AllFit(ys) && SameMeaning(xs, ys)
    ensures FeaturesIn(EncodeAll(xs)) == FeaturesIn(EncodeAll(ys))
  {
    SameUInt(xs, ys, NL80211_ATTR_FEATURE_FLAGS, 4);
    FindBytesInEncoded(xs, NL80211_ATTR_EXT_FEATURES);
    FindBytesInEncoded(ys, NL80211_ATTR_EXT_FEATURES);
  }

  lemma {:induction false} SameParse(g: Header, xs: seq<Attr>, h: Header, ys: seq<Attr>, before: Info)
    requires FitsHeader(g) && FitsHeader(h) && g.command == h.command
    requires AllFit(xs) && AllFit(ys) && SameMeaning(xs, ys)
    ensures HasBody(EncodePacket(g, EncodeAll(xs))) && HasBody(EncodePacket(h, EncodeAll(ys)))
    ensures Parsed(EncodePacket(g, EncodeAll(xs)), before) == Parsed(EncodePacket(h, EncodeAll(ys)), before)
  {
    HeaderReads(g, EncodeAll(xs));
    HeaderReads(h, EncodeAll(ys));
    BandInfoOfEncoded(xs);
    BandInfoOfEncoded(ys);
    SameCapabilities(xs, ys);
    SameFeatures(xs, ys);
  }

  // ---- looking attributes up in a merged packet ----

  ghost predicate Clean(pieces: seq<Piece>) {
    forall i :: 0 <= i < |pieces| ==> !IsFilter(pieces[i].attr.id) && pieces[i].wiphy < U32_SIZE
  }

  lemma {:induction false} LookupInOrder(pieces: seq<Piece>, wiphy: nat, ids: seq<nat>, id: nat)
    ensures Lookup(AttrsInOrder(pieces, wiphy, ids), id) ==
            if id in ids then Some(Joined(pieces, wiphy, id).GetOr([])) else None
  {
    if ids != [] {
      assert AttrsInOrder(pieces, wiphy, ids)[1..] == AttrsInOrder(pieces, wiphy, ids[1..]);
      LookupInOrder(pieces, wiphy, ids[1..], id);
    }
  }

  /** A merged packet has, for every id, exactly the joined payloads of that wiphy. */
  lemma {:induction false} LookupInMerged(pieces: seq<Piece>, wiphy: nat, id: nat)
    requires Clean(pieces) && !IsFilter(id)
    ensures Lookup(MergedAttrs(pieces, wiphy), id) == Joined(pieces, wiphy, id)
  {
    var ids := Ascending(Ids(pieces, wiphy));
    assert MergedAttrs(pieces, wiphy)[1..] == AttrsInOrder(pieces, wiphy, ids);
    LookupInOrder(pieces, wiphy, ids, id);
    AscendingIsSorted(Ids(pieces, wiphy));
    JoinedDomain(pieces, wiphy, id);
  }

  lemma {:induction false} MergedAttrsFit(pieces: seq<Piece>, wiphy: nat)
    requires JoinedFit(pieces)
    ensures AllFit(MergedAttrs(pieces, wiphy))
  {
    var ids := Ascending(Ids(pieces, wiphy));
    AscendingIsSorted(Ids(pieces, wiphy));
    forall i | 0 <= i < |ids|
      ensures Fits(AttrsInOrder(pieces, wiphy, ids)[i])
    {
      assert ids[i] in Ids(pieces, wiphy);
      JoinedDomain(pieces, wiphy, ids[i]);
    }
  }

  /** A merged packet names its own wiphy. */
  lemma {:induction false} WiphyOfMerged(pieces: seq<Piece>, wiphy: nat)
    requires JoinedFit(pieces) && wiphy < U32_SIZE
    ensures WiphyOf(MergedPacket(pieces, wiphy)[HDRLEN..]) == Some(wiphy)
    ensures HasBody(MergedPacket(pieces, wiphy))
  {
    MergedAttrsFit(pieces, wiphy);
    FindUIntInEncoded(MergedAttrs(pieces, wiphy), NL80211_ATTR_WIPHY, 4);
    Pow256Of4();
    ValueOfLittleEndian(wiphy, 4);
  }

  /** Only the packet of the requested wiphy matters. */
  lemma {:induction false} SelectedSkips(datas: seq<Buffer>, wiphy: nat, before: Info)
    requires forall i :: 0 <= i < |datas| ==> HasBody(datas[i])
    requires forall i :: 0 <= i < |datas| ==> |datas[i]| >= HDRLEN && WiphyOf(datas[i][HDRLEN..]) != Some(wiphy)
    ensures Selected(datas, wiphy, before) == (false, before)
  {
    if |datas| > 0 {
      assert HasBody(datas[0]);
      SelectedSkips(datas[1..], wiphy, before);
    }
  }

  lemma {:induction false} SelectedOnly(datas: seq<Buffer>, k: nat, wiphy: nat, before: Info)
    requires k < |datas| && forall i :: 0 <= i < |datas| ==> HasBody(datas[i])
    requires forall i :: 0 <= i < |datas| ==> |datas[i]| >= HDRLEN && (WiphyOf(datas[i][HDRLEN..]) == Some(wiphy) <==> i == k)
    ensures HasBody(datas[k]) && Selected(datas, wiphy, before) == Parsed(datas[k], before)
  {
    assert HasBody(datas[0]);
    if k == 0 {
      SelectedSkips(datas[1..], wiphy, Parsed(datas[0], before).1);
    } else {
      SelectedOnly(datas[1..], k - 1, wiphy, before);
    }
  }

  lemma {:induction false} SelectedFromMerged(pieces: seq<Piece>, wiphy: nat, before: Info)
    requires JoinedFit(pieces) && Clean(pieces)
    ensures forall i :: 0 <= i < |MergedPackets(pieces)| ==> HasBody(MergedPackets(pieces)[i])
    ensures HasBody(MergedPacket(pieces, wiphy))
    ensures Selected(MergedPackets(pieces), wiphy, before) ==
            if wiphy in Wiphys(pieces) then Parsed(MergedPacket(pieces, wiphy), before) else (false, before)
  {
    var wiphys, datas := Ascending(Wiphys(pieces)), MergedPackets(pieces);
    AscendingIsSorted(Wiphys(pieces));
    forall i | 0 <= i < |datas|
      ensures HasBody(datas[i]) && WiphyOf(datas[i][HDRLEN..]) == Some(wiphys[i])
    {
      assert wiphys[i] in Wiphys(pieces);
      WiphyOfMerged(pieces, wiphys[i]);
    }
    MergedAttrsFit(pieces, wiphy);
    if wiphy in Wiphys(pieces) {
      var k :| 0 <= k < |wiphys| && wiphys[k] == wiphy;
      SelectedOnly(datas, k, wiphy, before);
    } else {
      SelectedSkips(datas, wiphy, before);
    }
  }

  // ---- bands as trees, and cuts of them ----

  /** The frequency list of a band, if it has one, is a nested attribute. */
  predicate TypedBand(band: Node) {
    band.Nest? && match FirstChild(band.kids, NL80211_BAND_ATTR_FREQS) case None => true case Some(n) => n.Nest?
  }

  predicate TypedBands(bands: seq<Node>) {
    forall i :: 0 <= i < |bands| ==> TypedBand(bands[i])
  }

  function FreqNodes(band: Node): seq<Node> {
    if band.Leaf? then []
    else
      match FirstChild(band.kids, NL80211_BAND_ATTR_FREQS)
      case None => []
      case Some(n) => if n.Nest? then n.kids else []
  }

  /** The frequencies of all bands, in order. */
  function AllFreqNodes(bands: seq<Node>): seq<Node> {
    if bands == [] then [] else AllFreqNodes(bands[..|bands| - 1]) + FreqNodes(bands[|bands| - 1])
  }

  lemma {:induction false} FrontOfAppend<T>(xs: seq<T>, ys: seq<T>)
    requires ys != []
    ensures (xs + ys)[..|xs + ys| - 1] == xs + ys[..|ys| - 1]
    ensures (xs + ys)[|xs + ys| - 1] == ys[|ys| - 1]
  {
  }

  lemma {:induction false} AllFreqNodesAppend(xs: seq<Node>, ys: seq<Node>)
    ensures AllFreqNodes(xs + ys) == AllFreqNodes(xs) + AllFreqNodes(ys)
  {
    if ys == [] {
      assert xs + ys == xs;
    } else {
      var front, last := ys[..|ys| - 1], ys[|ys| - 1];
      AllFreqNodesAppend(xs, front);
      FrontOfAppend(xs, ys);
      Regroup(AllFreqNodes(xs), AllFreqNodes(front), FreqNodes(last));
    }
  }

  /** Pieces of one band: together they list its frequencies, each once and in order. */
  ghost predicate CutBand(band: Node, pieces: seq<Node>) {
    TypedBand(band) && TypedBands(pieces) && AllFreqNodes(pieces) == FreqNodes(band)
  }

  function Flat(parts: seq<seq<Node>>): seq<Node> {
    if parts == [] then [] else Flat(parts[..|parts| - 1]) + parts[|parts| - 1]
  }

  /** One group of pieces for each band, in order. */
  ghost predicate Grouped(bands: seq<Node>, groups: seq<seq<Node>>) {
    |groups| == |bands| && forall i :: 0 <= i < |bands| ==> CutBand(bands[i], groups[i])
  }

  /** `cut` lists pieces of the bands, in the order of the bands: a cut at band or frequency boundaries. */
  ghost predicate CutBands(bands: seq<Node>, cut: seq<Node>) {
    exists groups :: Grouped(bands, groups) && Flat(groups) == cut
  }

  lemma {:induction false} TypedAppend(xs: seq<Node>, ys: seq<Node>)
    ensures TypedBands(xs + ys) <==> TypedBands(xs) && TypedBands(ys)
  {
    assert forall i :: 0 <= i < |xs| ==> (xs + ys)[i] == xs[i];
    assert forall i :: 0 <= i < |ys| ==> (xs + ys)[|xs| + i] == ys[i];
  }

  lemma {:induction false} GroupsKeepFrequencies(bands: seq<Node>, groups: seq<seq<Node>>)
    requires Grouped(bands, groups)
    ensures TypedBands(bands) && TypedBands(Flat(groups)) && AllFreqNodes(Flat(groups)) == AllFreqNodes(bands)
  {
    if bands != [] {
      var n := |bands| - 1;
      GroupsKeepFrequencies(bands[..n], groups[..n]);
      FrontAndLast(bands);
      TypedAppend(Flat(groups[..n]), groups[n]);
      TypedAppend(bands[..n], [bands[n]]);
      AllFreqNodesAppend(Flat(groups[..n]), groups[n]);
    }
  }

  lemma {:induction false} CutKeepsFrequencies(bands: seq<Node>, cut: seq<Node>)
    requires CutBands(bands, cut)
    ensures TypedBands(bands) && TypedBands(cut) && AllFreqNodes(cut) == AllFreqNodes(bands)
  {
    var groups :| Grouped(bands, groups) && Flat(groups) == cut;
    GroupsKeepFrequencies(bands, groups);
  }

  /** One band cut at any of its frequencies gives two pieces of it, whatever else either carries. */
  lemma {:induction false} CutAtFrequency(id: nat, freqs: seq<Node>, k: nat, others: seq<Node>, first: seq<Node>, second: seq<Node>)
    requires k <= |freqs|
    requires FirstChild(others, NL80211_BAND_ATTR_FREQS) == None
    requires FirstChild(first, NL80211_BAND_ATTR_FREQS) == None
    requires FirstChild(second, NL80211_BAND_ATTR_FREQS) == None
    ensures var F := NL80211_BAND_ATTR_FREQS;
            CutBand(Nest(id, others + [Nest(F, freqs)]),
                    [Nest(id, first + [Nest(F, freqs[..k])]), Nest(id, second + [Nest(F, freqs[k..])])])
  {
    var F := NL80211_BAND_ATTR_FREQS;
    FirstChildAppend(others, [Nest(F, freqs)], F);
    FirstChildAppend(first, [Nest(F, freqs[..k])], F);
    FirstChildAppend(second, [Nest(F, freqs[k..])], F);
    var a, b := Nest(id, first + [Nest(F, freqs[..k])]), Nest(id, second + [Nest(F, freqs[k..])]);
    assert [a, b][..1] == [a] && [a][..0] == [];
    assert AllFreqNodes([a]) == [] + FreqNodes(a);
    assert AllFreqNodes([a, b]) == AllFreqNodes([a]) + FreqNodes(b);
    assert freqs == freqs[..k] + freqs[k..];
  }

  /** Replacing one entry by pieces of it does not change what a list contributes. */
  lemma {:induction false} PiecesForEntry(before: seq<Node>, entry: Node, after: seq<Node>, pieces: seq<Node>)
    requires CutBand(entry, pieces)
    ensures AllFreqNodes(before + pieces + after) == AllFreqNodes(before + [entry] + after)
    ensures TypedBands(before + [entry] + after) ==> TypedBands(before + pieces + after)
  {
    AllFreqNodesAppend(before + pieces, after);
    AllFreqNodesAppend(before, pieces);
    AllFreqNodesAppend(before + [entry], after);
    AllFreqNodesAppend(before, [entry]);
    TypedAppend(before + pieces, after);
    TypedAppend(before, pieces);
    TypedAppend(before + [entry], after);
    TypedAppend(before, [entry]);
  }

  /** An element stands in the first of two lists that are joined. */
  lemma {:induction false} InFirst<T>(x: seq<T>, y: seq<T>, before: seq<T>, entry: T, after: seq<T>)
    requires x + y == before + [entry] + after && |before| < |x|
    ensures x == before + [entry] + x[|before| + 1..] && after == x[|before| + 1..] + y
  {
    assert x == (x + y)[..|x|] && y == (x + y)[|x|..];
  }

  /** Or it stands in the second. */
  lemma {:induction false} InSecond<T>(x: seq<T>, y: seq<T>, before: seq<T>, entry: T, after: seq<T>)
    requires x + y == before + [entry] + after && |before| >= |x|
    ensures |before| - |x| < |y|
    ensures before == x + y[..|before| - |x|] && y == y[..|before| - |x|] + [entry] + after
  {
    assert x == (x + y)[..|x|] && y == (x + y)[|x|..];
  }

  lemma {:induction false} LastPieces(band: Node, before: seq<Node>, entry: Node, after: seq<Node>, pieces: seq<Node>)
    requires CutBand(band, before + [entry] + after) && CutBand(entry, pieces)
    ensures CutBand(band, before + pieces + after)
  {
    PiecesForEntry(before, entry, after, pieces);
  }

  lemma {:induction false} GroupsCutFurther(bands: seq<Node>, groups: seq<seq<Node>>, before: seq<Node>, entry: Node,
                                            after: seq<Node>, pieces: seq<Node>) returns (finer: seq<seq<Node>>)
    requires Grouped(bands, groups) && Flat(groups) == before + [entry] + after && CutBand(entry, pieces)
    ensures Grouped(bands, finer) && Flat(finer) == before + pieces + after
    decreases |groups|
  {
    assert Flat(groups)[|before|] == entry;
    var n := |groups| - 1;
    var x, y := Flat(groups[..n]), groups[n];
    if |before| < |x| {
      InFirst(x, y, before, entry, after);
      var middle := x[|before| + 1..];
      var front := GroupsCutFurther(bands[..n], groups[..n], before, entry, middle, pieces);
      Regroup(before + pieces, middle, y);
      finer := front + [y];
    } else {
      InSecond(x, y, before, entry, after);
      finer := LastCutFurther(bands, groups, y[..|before| - |x|], entry, after, pieces);
      Regroup(x, y[..|before| - |x|] + pieces, after);
      Regroup(x, y[..|before| - |x|], pieces);
    }
  }

  lemma {:induction false} LastCutFurther(bands: seq<Node>, groups: seq<seq<Node>>, before: seq<Node>, entry: Node,
                                          after: seq<Node>, pieces: seq<Node>) returns (finer: seq<seq<Node>>)
    requires Grouped(bands, groups) && bands != [] && CutBand(entry, pieces)
    requires groups[|groups| - 1] == before + [entry] + after
    ensures Grouped(bands, finer) && Flat(finer) == Flat(groups[..|groups| - 1]) + (before + pieces + after)
  {
    var n := |groups| - 1;
    LastPieces(bands[n], before, entry, after, pieces);
    finer := groups[..n] + [before + pieces + after];
  }

  /**
   Any entry of any cut may be cut further: with WholeIsCut and CutAtFrequency, a list of bands may be cut at any
   number of band and frequency boundaries.
   */
  lemma {:induction false} CutFurther(bands: seq<Node>, before: seq<Node>, entry: Node, after: seq<Node>, pieces: seq<Node>)
    requires CutBands(bands, before + [entry] + after) && CutBand(entry, pieces)
    ensures CutBands(bands, before + pieces + after)
  {
    var groups :| Grouped(bands, groups) && Flat(groups) == before + [entry] + after;
    var finer := GroupsCutFurther(bands, groups, before, entry, after, pieces);
  }

  // ---- what encoded bands mean ----

  function EncodeEach(nodes: seq<Node>): seq<Buffer> {
    Encodings(ToAttrs(nodes))
  }

  lemma {:induction false} FreqsOfEncodedBand(band: Node)
    requires TypedBand(band) && FitsTree(band)
    ensures FreqsOfBand(EncodeNode(band)[NLA_HDRLEN..]) == EncodeEach(FreqNodes(band))
  {
    NestedBody(band);
    var attrs := ToAttrs(band.kids);
    FindInEncoded(attrs, NL80211_BAND_ATTR_FREQS);
    LookupFirstChild(band.kids, NL80211_BAND_ATTR_FREQS);
    if FirstChild(band.kids, NL80211_BAND_ATTR_FREQS).Some? {
      var list := FirstChild(band.kids, NL80211_BAND_ATTR_FREQS).value;
      assert FitsTree(list);
      NestedBody(list);
      EncodedIsWellFormed(ToAttrs(list.kids));
      SlicesOfEncoded(ToAttrs(list.kids));
    }
  }

  lemma {:induction false} EncodeEachIsValid(nodes: seq<Node>)
    requires AllFitTree(nodes)
    ensures forall i :: 0 <= i < |EncodeEach(nodes)| ==> IsValid(EncodeEach(nodes)[i])
  {
    forall i | 0 <= i < |nodes|
      ensures IsValid(EncodeEach(nodes)[i])
    {
      EncodeRoundTrip(ToAttr(nodes[i]));
    }
  }

  lemma {:induction false} EncodeEachAppend(xs: seq<Node>, ys: seq<Node>)
    ensures EncodeEach(xs + ys) == EncodeEach(xs) + EncodeEach(ys)
  {
  }

  lemma {:induction false} FreqsOfEncodedBands(bands: seq<Node>)
    requires TypedBands(bands) && AllFitTree(bands)
    ensures forall i :: 0 <= i < |EncodeEach(bands)| ==> IsValid(EncodeEach(bands)[i])
    ensures FreqsOfBands(EncodeEach(bands)) == EncodeEach(AllFreqNodes(bands))
  {
    EncodeEachIsValid(bands);
    if bands != [] {
      var front, last := bands[..|bands| - 1], bands[|bands| - 1];
      FreqsOfEncodedBands(front);
      FreqsOfEncodedBand(last);
      EncodeRoundTrip(ToAttr(last));
      FrontAndLast(bands);
      EncodeEachAppend(front, [last]);
      assert EncodeEach([last]) == [EncodeNode(last)];
      EncodeEachAppend(AllFreqNodes(front), FreqNodes(last));
    }
  }

  lemma {:induction false} MeaningOfEncodedBands(bands: seq<Node>, cut: seq<Node>)
    requires AllFitTree(bands) && AllFitTree(cut) && CutBands(bands, cut)
    ensures BandsMeaning(EncodeNodes(cut)) == BandsMeaning(EncodeNodes(bands))
  {
    CutKeepsFrequencies(bands, cut);
    EncodedIsWellFormed(ToAttrs(bands));
    EncodedIsWellFormed(ToAttrs(cut));
    SlicesOfEncoded(ToAttrs(bands));
    SlicesOfEncoded(ToAttrs(cut));
    FreqsOfEncodedBands(bands);
    FreqsOfEncodedBands(cut);
  }

  // ---- splits of a packet ----

  /** One packet of a split dump: its attributes include the index of its wiphy. */
  datatype Fragment = Fragment(wiphy: nat, attrs: seq<Attr>)

  predicate ValidFragment(f: Fragment) {
    AllFit(f.attrs) && f.wiphy < U32_SIZE && Lookup(f.attrs, NL80211_ATTR_WIPHY) == Some(LittleEndian(f.wiphy, 4))
  }

  predicate ValidFragments(frags: seq<Fragment>) {
    forall i :: 0 <= i < |frags| ==> ValidFragment(frags[i])
  }

  function BodiesOf(frags: seq<Fragment>): (bodies: seq<Buffer>)
    ensures |bodies| == |frags|
    ensures forall i :: 0 <= i < |frags| ==> bodies[i] == EncodeAll(frags[i].attrs)
  {
    seq(|frags|, i requires 0 <= i < |frags| => EncodeAll(frags[i].attrs))
  }

  function FragmentPieces(frags: seq<Fragment>): seq<Piece> {
    if frags == [] then []
    else
      var last := frags[|frags| - 1];
      FragmentPieces(frags[..|frags| - 1]) + PiecesOf(last.wiphy, last.attrs)
  }

  lemma {:induction false} FragmentBody(f: Fragment)
    requires ValidFragment(f)
    ensures var body := EncodeAll(f.attrs);
            Readable(body) && Mergeable(body) && WiphyOf(body) == Some(f.wiphy) && AttrList(body) == f.attrs
  {
    var body := EncodeAll(f.attrs);
    AttrListOfEncoded(f.attrs);
    assert SearchEnds(body, NL80211_ATTR_WIPHY) by { SearchesEnd(body); }
    assert WiphyOf(body) == Some(f.wiphy) by {
      FindUIntInEncoded(f.attrs, NL80211_ATTR_WIPHY, 4);
      Pow256Of4();
      ValueOfLittleEndian(f.wiphy, 4);
    }
  }

  lemma {:induction false} PiecesAreClean(wiphy: nat, attrs: seq<Attr>)
    requires wiphy < U32_SIZE
    ensures Clean(PiecesOf(wiphy, attrs))
  {
    if attrs != [] {
      PiecesAreClean(wiphy, attrs[..|attrs| - 1]);
    }
  }

  lemma {:induction false} PiecesOfFragments(frags: seq<Fragment>)
    requires ValidFragments(frags)
    ensures AllReadable(BodiesOf(frags)) && AllMergeable(BodiesOf(frags))
    ensures AllPieces(BodiesOf(frags)) == FragmentPieces(frags)
    ensures Clean(FragmentPieces(frags))
  {
    forall i | 0 <= i < |frags|
      ensures Readable(BodiesOf(frags)[i]) && Mergeable(BodiesOf(frags)[i])
    {
      FragmentBody(frags[i]);
    }
    if frags != [] {
      var front, last := frags[..|frags| - 1], frags[|frags| - 1];
      PiecesOfFragments(front);
      FragmentBody(last);
      PiecesAreClean(last.wiphy, last.attrs);
      assert BodiesOf(frags)[..|frags| - 1] == BodiesOf(front);
    }
  }

  /**
     The pieces of one wiphy come from splitting `orig`: for every id they carry exactly the bytes of the
     original, in order and in any number of parts; the bands may also be cut into more band entries.
   */
  ghost predicate IsSplitOf(orig: seq<Node>, wiphy: nat, pieces: seq<Piece>, cut: seq<Node>) {
    && (forall id: nat :: id != NL80211_ATTR_WIPHY_BANDS && !IsFilter(id) ==>
          Joined(pieces, wiphy, id) == Lookup(ToAttrs(orig), id))
    && match FirstChild(orig, NL80211_ATTR_WIPHY_BANDS)
       case None => Joined(pieces, wiphy, NL80211_ATTR_WIPHY_BANDS) == None
       case Some(bands) =>
         && bands.Nest? && AllFitTree(cut) && CutBands(bands.kids, cut)
         && Joined(pieces, wiphy, NL80211_ATTR_WIPHY_BANDS) == Some(EncodeNodes(cut))
  }

  lemma {:induction false} BandsLookupOfNodes(attrs: seq<Attr>, bands: seq<Node>)
    requires Lookup(attrs, NL80211_ATTR_WIPHY_BANDS) == Some(EncodeNodes(bands))
    ensures BandsLookup(attrs) == Some(BandsMeaning(EncodeNodes(bands)))
  {
    EncodedIsAligned(ToAttrs(bands));
    AlignOfMultiple(|EncodeNodes(bands)|);
    assert EncodeNodes(bands) + Zeros(0) == EncodeNodes(bands);
  }

  lemma {:induction false} SplitKeepsMeaning(orig: seq<Node>, wiphy: nat, pieces: seq<Piece>, cut: seq<Node>)
    requires AllFitTree(orig) && Clean(pieces) && IsSplitOf(orig, wiphy, pieces, cut)
    ensures SameMeaning(MergedAttrs(pieces, wiphy), ToAttrs(orig))
  {
    var merged := MergedAttrs(pieces, wiphy);
    forall id: nat | !IsFilter(id)
      ensures Lookup(merged, id) == Joined(pieces, wiphy, id)
    {
      LookupInMerged(pieces, wiphy, id);
    }
    LookupFirstChild(orig, NL80211_ATTR_WIPHY_BANDS);
    if FirstChild(orig, NL80211_ATTR_WIPHY_BANDS).Some? {
      var bands := FirstChild(orig, NL80211_ATTR_WIPHY_BANDS).value;
      assert FitsTree(bands);
      MeaningOfEncodedBands(bands.kids, cut);
      BandsLookupOfNodes(merged, cut);
      BandsLookupOfNodes(ToAttrs(orig), bands.kids);
    }
  }

  /**
     GetWiphyInfo returns the same result and writes the same outputs for a split dump, in which fragments
     of several wiphys may alternate, as for the packet the requested wiphy's fragments were split from.
   */
  lemma {:induction false} SplitDumpRefinesUnsplitDump(h: Header, orig: seq<Node>, wiphy: nat, frags: seq<Fragment>, cut: seq<Node>, before: Info)
    requires FitsHeader(h) && h.command == NL80211_CMD_NEW_WIPHY
    requires AllFitTree(orig) && Lookup(ToAttrs(orig), NL80211_ATTR_WIPHY) == Some(LittleEndian(wiphy, 4)) && wiphy < U32_SIZE
    requires ValidFragments(frags) && JoinedFit(FragmentPieces(frags))
    requires IsSplitOf(orig, wiphy, FragmentPieces(frags), cut)
    ensures AllReadable(BodiesOf(frags))
    ensures var split := PacketsToSearch(true, [], BodiesOf(frags));
            var unsplit := PacketsToSearch(false, [EncodePacket(h, EncodeNodes(orig))], []);
            && (forall i :: 0 <= i < |split| ==> HasBody(split[i]))
            && (forall i :: 0 <= i < |unsplit| ==> HasBody(unsplit[i]))
            && Selected(split, wiphy, before) == Selected(unsplit, wiphy, before)
  {
    var pieces := FragmentPieces(frags);
    PiecesOfFragments(frags);
    OriginalIsSelected(h, orig, wiphy, before);
    MergedParsesAlike(h, orig, wiphy, pieces, cut, before);
    SelectedFromMerged(pieces, wiphy, before);
  }

  /** An unsplit packet is the one that is parsed. */
  lemma {:induction false} OriginalIsSelected(h: Header, orig: seq<Node>, wiphy: nat, before: Info)
    requires AllFitTree(orig) && wiphy < U32_SIZE
    requires Lookup(ToAttrs(orig), NL80211_ATTR_WIPHY) == Some(LittleEndian(wiphy, 4))
    ensures var data := EncodePacket(h, EncodeNodes(orig));
            HasBody(data) && Selected([data], wiphy, before) == Parsed(data, before)
  {
    FragmentBody(Fragment(wiphy, ToAttrs(orig)));
    SelectedOnly([EncodePacket(h, EncodeNodes(orig))], 0, wiphy, before);
  }

  /** The merged packet of a split parses as the original does, or neither does if there is nothing to merge. */
  lemma {:induction false} MergedParsesAlike(h: Header, orig: seq<Node>, wiphy: nat, pieces: seq<Piece>, cut: seq<Node>, before: Info)
    requires FitsHeader(h) && h.command == NL80211_CMD_NEW_WIPHY && AllFitTree(orig)
    requires JoinedFit(pieces) && Clean(pieces) && IsSplitOf(orig, wiphy, pieces, cut)
    ensures HasBody(MergedPacket(pieces, wiphy)) && HasBody(EncodePacket(h, EncodeNodes(orig)))
    ensures Parsed(EncodePacket(h, EncodeNodes(orig)), before) == Parsed(MergedPacket(pieces, wiphy), before)
    ensures wiphy !in Wiphys(pieces) ==> Parsed(MergedPacket(pieces, wiphy), before) == (false, before)
  {
    MergedAttrsFit(pieces, wiphy);
    SplitKeepsMeaning(orig, wiphy, pieces, cut);
    SameParse(MERGED_HEADER, MergedAttrs(pieces, wiphy), h, ToAttrs(orig), before);
    if wiphy !in Wiphys(pieces) {
      NothingToMerge(pieces, wiphy);
      BandInfoOfEncoded(MergedAttrs(pieces, wiphy));
    }
  }

  // ---- the method itself applies to splits ----

  /** Every entry of a frequency list is a nested attribute. */
  predicate TypedFreqs(freqs: seq<Node>) {
    forall i :: 0 <= i < |freqs| ==> freqs[i].Nest?
  }

  lemma {:induction false} EncodedIsSearchable(n: Node)
    requires n.Nest? && FitsTree(n)
    ensures forall id: nat :: SearchEnds(EncodeNode(n)[NLA_HDRLEN..], id)
  {
    NestedBody(n);
    EncodedIsWellFormed(ToAttrs(n.kids));
    SearchesEnd(EncodeNode(n)[NLA_HDRLEN..]);
  }

  lemma {:induction false} FreqNodesFit(band: Node)
    requires TypedBand(band) && FitsTree(band)
    ensures AllFitTree(FreqNodes(band))
  {
    LookupFirstChild(band.kids, NL80211_BAND_ATTR_FREQS);
    if FirstChild(band.kids, NL80211_BAND_ATTR_FREQS).Some? {
      assert FitsTree(FirstChild(band.kids, NL80211_BAND_ATTR_FREQS).value);
    }
  }

  lemma {:induction false} BandIsSearchable(band: Node)
    requires TypedBand(band) && FitsTree(band) && TypedFreqs(FreqNodes(band))
    ensures SearchableFreqs(EncodeNode(band)[NLA_HDRLEN..])
  {
    EncodedIsSearchable(band);
    FreqsOfEncodedBand(band);
    FreqNodesFit(band);
    forall i | 0 <= i < |FreqNodes(band)|
      ensures SearchableFreq(EncodeEach(FreqNodes(band))[i][NLA_HDRLEN..])
    {
      var freq := FreqNodes(band)[i];
      assert EncodeEach(FreqNodes(band))[i] == EncodeNode(freq);
      EncodedIsSearchable(freq);
    }
  }

  lemma {:induction false} TypedFreqsOfBand(bands: seq<Node>, i: nat)
    requires i < |bands| && TypedFreqs(AllFreqNodes(bands))
    ensures TypedFreqs(FreqNodes(bands[i]))
  {
    var front, last := bands[..|bands| - 1], bands[|bands| - 1];
    var before := AllFreqNodes(front);
    assert forall j :: 0 <= j < |before| ==> AllFreqNodes(bands)[j] == before[j];
    assert forall j :: 0 <= j < |FreqNodes(last)| ==> AllFreqNodes(bands)[|before| + j] == FreqNodes(last)[j];
    if i < |front| {
      TypedFreqsOfBand(front, i);
    }
  }

  lemma {:induction false} BandsAreSearchable(bands: seq<Node>)
    requires TypedBands(bands) && AllFitTree(bands) && TypedFreqs(AllFreqNodes(bands))
    ensures SearchableBands(EncodeNodes(bands))
  {
    SlicesAreValid(EncodeNodes(bands));
    SlicesOfEncoded(ToAttrs(bands));
    forall i | 0 <= i < |bands|
      ensures SearchableFreqs(Slices(EncodeNodes(bands))[i][NLA_HDRLEN..])
    {
      TypedFreqsOfBand(bands, i);
      BandIsSearchable(bands[i]);
    }
  }

  /** A packet whose wiphy can be looked up, and which can be parsed if that is the requested one. */
  predicate Parseable(data: Buffer, wiphy: nat) {
    && HasBody(data) && SearchEnds(data[HDRLEN..], NL80211_ATTR_WIPHY)
    && (WiphyOf(data[HDRLEN..]) == Some(wiphy) ==> Searchable(data))
  }

  lemma {:induction false} ParseableIsScannable(datas: seq<Buffer>, wiphy: nat, before: Info)
    requires forall i :: 0 <= i < |datas| ==> Parseable(datas[i], wiphy)
    ensures (forall i :: 0 <= i < |datas| ==> HasBody(datas[i])) && Scannable(datas, wiphy, before)
  {
    if |datas| > 0 {
      assert Parseable(datas[0], wiphy);
      ParseableIsScannable(datas[1..], wiphy, before);
      ParseableIsScannable(datas[1..], wiphy, Parsed(datas[0], before).1);
    }
  }

  /** A packet of attributes in which the bands, if any, are trees of this shape is searchable. */
  lemma {:induction false} AttrsAreSearchable(h: Header, attrs: seq<Attr>, bands: seq<Node>, wiphy: nat)
    requires AllFit(attrs) && TypedBands(bands) && AllFitTree(bands) && TypedFreqs(AllFreqNodes(bands))
    requires var found := Lookup(attrs, NL80211_ATTR_WIPHY_BANDS); found == None || found == Some(EncodeNodes(bands))
    ensures Parseable(EncodePacket(h, EncodeAll(attrs)), wiphy)
  {
    var body := EncodeAll(attrs);
    EncodedIsWellFormed(attrs);
    SearchesEnd(body);
    BytesAreReadable(body);
    FindInEncoded(attrs, NL80211_ATTR_WIPHY_BANDS);
    FindIsValid(body, NL80211_ATTR_WIPHY_BANDS);
    EncodedIsAligned(ToAttrs(bands));
    AlignedPayload(NL80211_ATTR_WIPHY_BANDS, EncodeNodes(bands));
    BandsAreSearchable(bands);
  }

  /** Whether the packets are encoded or merged, GetWiphyInfo may be called on them. */
  lemma {:induction false} SplitMayBeParsed(h: Header, orig: seq<Node>, wiphy: nat, frags: seq<Fragment>, cut: seq<Node>, before: Info)
    requires AllFitTree(orig) && ValidFragments(frags) && JoinedFit(FragmentPieces(frags))
    requires IsSplitOf(orig, wiphy, FragmentPieces(frags), cut) && wiphy < U32_SIZE
    requires TypedBands(cut) && AllFitTree(cut) && TypedFreqs(AllFreqNodes(cut))
    ensures AllReadable(BodiesOf(frags)) && JoinedFit(AllPieces(BodiesOf(frags)))
    ensures var split := PacketsToSearch(true, [], BodiesOf(frags));
            (forall i :: 0 <= i < |split| ==> HasBody(split[i])) && Scannable(split, wiphy, before)
    ensures var unsplit := [EncodePacket(h, EncodeNodes(orig))];
            HasBody(unsplit[0]) && Scannable(unsplit, wiphy, before)
  {
    var pieces := FragmentPieces(frags);
    PiecesOfFragments(frags);
    AllMergedMayBeParsed(pieces, wiphy, cut);
    ParseableIsScannable(MergedPackets(pieces), wiphy, before);
    OriginalIsSearchable(h, orig, wiphy, pieces, cut);
    ParseableIsScannable([EncodePacket(h, EncodeNodes(orig))], wiphy, before);
  }

  lemma {:induction false} AllMergedMayBeParsed(pieces: seq<Piece>, wiphy: nat, cut: seq<Node>)
    requires JoinedFit(pieces) && Clean(pieces)
    requires TypedBands(cut) && AllFitTree(cut) && TypedFreqs(AllFreqNodes(cut))
    requires var found := Joined(pieces, wiphy, NL80211_ATTR_WIPHY_BANDS); found == None || found == Some(EncodeNodes(cut))
    ensures forall i :: 0 <= i < |MergedPackets(pieces)| ==> Parseable(MergedPackets(pieces)[i], wiphy)
  {
    AscendingIsSorted(Wiphys(pieces));
    forall i | 0 <= i < |MergedPackets(pieces)|
      ensures Parseable(MergedPackets(pieces)[i], wiphy)
    {
      var w := Ascending(Wiphys(pieces))[i];
      assert w in Wiphys(pieces);
      MergedMayBeParsed(pieces, w, wiphy, cut);
    }
  }

  lemma {:induction false} MergedMayBeParsed(pieces: seq<Piece>, w: nat, wiphy: nat, cut: seq<Node>)
    requires JoinedFit(pieces) && Clean(pieces) && w < U32_SIZE
    requires TypedBands(cut) && AllFitTree(cut) && TypedFreqs(AllFreqNodes(cut))
    requires var found := Joined(pieces, wiphy, NL80211_ATTR_WIPHY_BANDS); found == None || found == Some(EncodeNodes(cut))
    ensures Parseable(MergedPacket(pieces, w), wiphy)
  {
    var attrs := MergedAttrs(pieces, w);
    MergedAttrsFit(pieces, w);
    WiphyOfMerged(pieces, w);
    EncodedIsWellFormed(attrs);
    SearchesEnd(EncodeAll(attrs));
    if w == wiphy {
      LookupInMerged(pieces, w, NL80211_ATTR_WIPHY_BANDS);
      AttrsAreSearchable(MERGED_HEADER, attrs, cut, wiphy);
    }
  }

  lemma {:induction false} OriginalIsSearchable(h: Header, orig: seq<Node>, wiphy: nat, pieces: seq<Piece>, cut: seq<Node>)
    requires AllFitTree(orig) && IsSplitOf(orig, wiphy, pieces, cut) && TypedFreqs(AllFreqNodes(cut))
    ensures Parseable(EncodePacket(h, EncodeNodes(orig)), wiphy)
  {
    LookupFirstChild(orig, NL80211_ATTR_WIPHY_BANDS);
    match FirstChild(orig, NL80211_ATTR_WIPHY_BANDS)
    case None => AttrsAreSearchable(h, ToAttrs(orig), [], wiphy);
    case Some(bands) =>
      assert FitsTree(bands);
      CutKeepsFrequencies(bands.kids, cut);
      AttrsAreSearchable(h, ToAttrs(orig), bands.kids, wiphy);
  }

  /** A wiphy without contributions has no bands either, so both ways fail before writing anything. */
  lemma {:induction false} NothingToMerge(pieces: seq<Piece>, wiphy: nat)
    requires wiphy !in Wiphys(pieces) && Clean(pieces)
    ensures BandsLookup(MergedAttrs(pieces, wiphy)) == None
  {
    LookupInMerged(pieces, wiphy, NL80211_ATTR_WIPHY_BANDS);
    JoinedDomain(pieces, wiphy, NL80211_ATTR_WIPHY_BANDS);
  }

  // ---- distributing attributes, and parts of the list of bands, is a split ----

  lemma {:induction false} JoinedOfAbsent(pieces: seq<Piece>, wiphy: nat, id: nat)
    requires forall i :: 0 <= i < |pieces| ==> !(pieces[i].wiphy == wiphy && pieces[i].attr.id == id)
    ensures Joined(pieces, wiphy, id) == None
  {
    JoinedDomain(pieces, wiphy, id);
  }

  lemma {:induction false} JoinedOfUnique(pieces: seq<Piece>, k: nat)
    requires k < |pieces|
    requires forall i :: 0 <= i < |pieces| && i != k ==>
               !(pieces[i].wiphy == pieces[k].wiphy && pieces[i].attr.id == pieces[k].attr.id)
    ensures Joined(pieces, pieces[k].wiphy, pieces[k].attr.id) == Some(pieces[k].attr.payload)
  {
    var front := pieces[..|pieces| - 1];
    if k == |pieces| - 1 {
      JoinedOfAbsent(front, pieces[k].wiphy, pieces[k].attr.id);
      assert [] + pieces[k].attr.payload == pieces[k].attr.payload;
    } else {
      JoinedOfUnique(front, k);
    }
  }

  /** The payloads of one wiphy and one id, in order of arrival. */
  function PayloadsOf(pieces: seq<Piece>, wiphy: nat, id: nat): seq<Buffer> {
    if pieces == [] then []
    else
      var last := pieces[|pieces| - 1];
      PayloadsOf(pieces[..|pieces| - 1], wiphy, id)
      + if last.wiphy == wiphy && last.attr.id == id then [last.attr.payload] else []
  }

  function EndToEnd(parts: seq<Buffer>): Buffer {
    if parts == [] then [] else EndToEnd(parts[..|parts| - 1]) + parts[|parts| - 1]
  }

  lemma {:induction false} JoinedIsEndToEnd(pieces: seq<Piece>, wiphy: nat, id: nat)
    ensures Joined(pieces, wiphy, id) ==
            if PayloadsOf(pieces, wiphy, id) == [] then None else Some(EndToEnd(PayloadsOf(pieces, wiphy, id)))
  {
    if pieces != [] {
      var front, last := pieces[..|pieces| - 1], pieces[|pieces| - 1];
      JoinedIsEndToEnd(front, wiphy, id);
      var before := PayloadsOf(front, wiphy, id);
      if last.wiphy == wiphy && last.attr.id == id {
        assert (before + [last.attr.payload])[..|before|] == before;
        assert EndToEnd([]) == [];
      } else {
        assert before + [] == before;
      }
    }
  }

  function EncodeParts(parts: seq<seq<Node>>): (encoded: seq<Buffer>)
    ensures |encoded| == |parts| && forall i :: 0 <= i < |parts| ==> encoded[i] == EncodeNodes(parts[i])
  {
    seq(|parts|, i requires 0 <= i < |parts| => EncodeNodes(parts[i]))
  }

  /** Parts of a list of nodes, encoded one by one, are end to end the encoding of the whole list. */
  lemma {:induction false} EndToEndOfParts(parts: seq<seq<Node>>)
    ensures EndToEnd(EncodeParts(parts)) == EncodeNodes(Flat(parts))
  {
    if parts == [] {
      assert ToAttrs([]) == [];
    } else {
      var front, last := parts[..|parts| - 1], parts[|parts| - 1];
      EndToEndOfParts(front);
      assert EncodeParts(parts)[..|parts| - 1] == EncodeParts(front);
      NodesAppend(Flat(front), last);
    }
  }

  /**
   Each attribute of the original goes whole to one fragment of its wiphy, except that the list of bands goes to
   any number of fragments, part by part. Other wiphys may do as they like.
   */
  ghost predicate Distributes(attrs: seq<Attr>, wiphy: nat, pieces: seq<Piece>, parts: seq<seq<Node>>) {
    && (forall i :: 0 <= i < |pieces| && pieces[i].wiphy == wiphy && pieces[i].attr.id != NL80211_ATTR_WIPHY_BANDS ==>
          pieces[i].attr in attrs)
    && (forall a :: a in attrs && !IsFilter(a.id) && a.id != NL80211_ATTR_WIPHY_BANDS ==> Piece(wiphy, a) in pieces)
    && (forall i, j :: 0 <= i < j < |pieces| && pieces[i].wiphy == pieces[j].wiphy == wiphy
                       && pieces[i].attr.id != NL80211_ATTR_WIPHY_BANDS ==>
          pieces[i].attr.id != pieces[j].attr.id)
    && PayloadsOf(pieces, wiphy, NL80211_ATTR_WIPHY_BANDS) == EncodeParts(parts)
  }

  /** The parts put together are a cut of the original's bands, which must be trees of bands; none without bands. */
  ghost predicate CutsBandsOf(orig: seq<Node>, parts: seq<seq<Node>>) {
    match FirstChild(orig, NL80211_ATTR_WIPHY_BANDS)
    case None => parts == []
    case Some(bands) => parts != [] && bands.Nest? && AllFitTree(Flat(parts)) && CutBands(bands.kids, Flat(parts))
  }

  lemma {:induction false} WholeAttribute(attrs: seq<Attr>, wiphy: nat, pieces: seq<Piece>, parts: seq<seq<Node>>, id: nat)
    requires Distributes(attrs, wiphy, pieces, parts) && !IsFilter(id) && id != NL80211_ATTR_WIPHY_BANDS
    requires forall i, j :: 0 <= i < j < |attrs| ==> attrs[i].id != attrs[j].id
    ensures Joined(pieces, wiphy, id) == Lookup(attrs, id)
  {
    LookupMember(attrs, id);
    if Lookup(attrs, id).Some? {
      var k :| 0 <= k < |pieces| && pieces[k] == Piece(wiphy, Attr(id, Lookup(attrs, id).value));
      JoinedOfUnique(pieces, k);
    } else {
      JoinedOfAbsent(pieces, wiphy, id);
    }
  }

  /** However attributes with distinct ids and parts of the bands are distributed over fragments, it is a split. */
  lemma {:induction false} DistributionIsSplit(orig: seq<Node>, wiphy: nat, pieces: seq<Piece>, parts: seq<seq<Node>>)
    requires Distributes(ToAttrs(orig), wiphy, pieces, parts) && CutsBandsOf(orig, parts)
    requires forall i, j :: 0 <= i < j < |orig| ==> orig[i].id != orig[j].id
    ensures IsSplitOf(orig, wiphy, pieces, Flat(parts))
  {
    forall id: nat | !IsFilter(id) && id != NL80211_ATTR_WIPHY_BANDS
      ensures Joined(pieces, wiphy, id) == Lookup(ToAttrs(orig), id)
    {
      WholeAttribute(ToAttrs(orig), wiphy, pieces, parts, id);
    }
    JoinedIsEndToEnd(pieces, wiphy, NL80211_ATTR_WIPHY_BANDS);
    EndToEndOfParts(parts);
  }

  /**
   The promise of the split dump, for a packet with distinct attribute ids whose attributes are distributed over
   fragments, with its bands cut at any band or frequency boundaries: GetWiphyInfo answers as for the packet.
   */
  lemma {:induction false} DistributedDumpRefinesPacket(h: Header, orig: seq<Node>, wiphy: nat, frags: seq<Fragment>,
                                                        parts: seq<seq<Node>>, before: Info)
    requires FitsHeader(h) && h.command == NL80211_CMD_NEW_WIPHY && AllFitTree(orig) && wiphy < U32_SIZE
    requires Lookup(ToAttrs(orig), NL80211_ATTR_WIPHY) == Some(LittleEndian(wiphy, 4))
    requires forall i, j :: 0 <= i < j < |orig| ==> orig[i].id != orig[j].id
    requires ValidFragments(frags) && JoinedFit(FragmentPieces(frags))
    requires Distributes(ToAttrs(orig), wiphy, FragmentPieces(frags), parts) && CutsBandsOf(orig, parts)
    ensures AllReadable(BodiesOf(frags))
    ensures var split := PacketsToSearch(true, [], BodiesOf(frags));
            var unsplit := PacketsToSearch(false, [EncodePacket(h, EncodeNodes(orig))], []);
            && (forall i :: 0 <= i < |split| ==> HasBody(split[i]))
            && (forall i :: 0 <= i < |unsplit| ==> HasBody(unsplit[i]))
            && Selected(split, wiphy, before) == Selected(unsplit, wiphy, before)
  {
    DistributionIsSplit(orig, wiphy, FragmentPieces(frags), parts);
    SplitDumpRefinesUnsplitDump(h, orig, wiphy, frags, Flat(parts), before);
  }

  function Singletons(bands: seq<Node>): (groups: seq<seq<Node>>)
    ensures |groups| == |bands| && forall i :: 0 <= i < |bands| ==> groups[i] == [bands[i]]
  {
    seq(|bands|, i requires 0 <= i < |bands| => [bands[i]])
  }

  lemma {:induction false} FlatOfSingletons(bands: seq<Node>)
    ensures Flat(Singletons(bands)) == bands
  {
    if bands != [] {
      var n := |bands| - 1;
      FlatOfSingletons(bands[..n]);
      FrontAndLast(bands);
      assert Singletons(bands)[..n] == Singletons(bands[..n]);
    }
  }

  /** A list of bands is a cut of itself. */
  lemma {:induction false} WholeIsCut(bands: seq<Node>)
    requires TypedBands(bands)
    ensures CutBands(bands, bands)
  {
    FlatOfSingletons(bands);
    forall i | 0 <= i < |bands|
      ensures CutBand(bands[i], [bands[i]])
    {
    }
    assert Grouped(bands, Singletons(bands));
  }
}
