/**
 Reassembly of a split wiphy dump (net/netlink_utils.cpp, MergePacketsForSplitWiphyDump): the
 attributes of all fragments are grouped by wiphy and id, and one packet per wiphy is built.
 */
module SplitWiphyDump {
  import opened Bytes
  import opened AttributeFormat
  import opened Nl80211Attribute
  import opened Nl80211Packet

  const NL80211_ATTR_WIPHY: nat := 1
  const NL80211_ATTR_IFINDEX: nat := 3
  const NL80211_ATTR_WDEV: nat := 153
  const NL80211_CMD_NEW_WIPHY: nat := 3

  /** Attributes that say which packets belong together, and are not merged themselves. */
  predicate IsFilter(id: nat) {
    id == NL80211_ATTR_WIPHY || id == NL80211_ATTR_IFINDEX || id == NL80211_ATTR_WDEV
  }

  function WiphyOf(body: Buffer): Option<nat> {
    FindUInt(body, NL80211_ATTR_WIPHY, 4)
  }

  /** One attribute of one fragment, with the wiphy that fragment names. */
  datatype Piece = Piece(wiphy: nat, attr: Attr)

  /** The attributes a fragment contributes, in order. */
  function PiecesOf(wiphy: nat, attrs: seq<Attr>): seq<Piece> {
    if attrs == [] then []
    else
      var last := attrs[|attrs| - 1];
      PiecesOf(wiphy, attrs[..|attrs| - 1]) + if IsFilter(last.id) then [] else [Piece(wiphy, last)]
  }

  /** The list of attributes can be read up to its first broken one, and the search for the wiphy ends. */
  predicate Readable(body: Buffer) {
    NoShortHeaders(body) && SearchEnds(body, NL80211_ATTR_WIPHY)
  }

  predicate AllReadable(bodies: seq<Buffer>) {
    forall i :: 0 <= i < |bodies| ==> Readable(bodies[i])
  }

  /** A fragment that does not make the merge fail. */
  predicate Mergeable(body: Buffer) {
    WellFormed(body) && WiphyOf(body).Some?
  }

  /** The contributions of all fragments, in order of arrival. */
  function AllPieces(bodies: seq<Buffer>): seq<Piece>
    requires AllReadable(bodies)
  {
    if bodies == [] then []
    else
      var last := bodies[|bodies| - 1];
      assert Readable(last);
      AllPieces(bodies[..|bodies| - 1]) + PiecesOf(WiphyOf(last).GetOr(0), AttrList(last))
  }

  /** All payloads of one wiphy and one id, in order of arrival, end to end; None when there is none. */
  function Joined(pieces: seq<Piece>, wiphy: nat, id: nat): Option<Buffer> {
    if pieces == [] then None
    else
      var before := Joined(pieces[..|pieces| - 1], wiphy, id);
      var last := pieces[|pieces| - 1];
      if last.wiphy == wiphy && last.attr.id == id then Some(before.GetOr([]) + last.attr.payload) else before
  }

  /** No merged attribute outgrows its 16-bit length. */
  ghost predicate JoinedFit(pieces: seq<Piece>) {
    forall w: nat, id: nat :: Joined(pieces, w, id).Some? ==> Fits(Attr(id, Joined(pieces, w, id).value))
  }

  function Wiphys(pieces: seq<Piece>): set<nat> {
    set i | 0 <= i < |pieces| :: pieces[i].wiphy
  }

  function Ids(pieces: seq<Piece>, wiphy: nat): set<nat> {
    set i | 0 <= i < |pieces| && pieces[i].wiphy == wiphy :: pieces[i].attr.id
  }

  lemma {:induction false} HasMinimum(s: set<nat>, x: nat)
    requires x in s
    ensures exists least :: least in s && forall y :: y in s ==> least <= y
    decreases x
  {
    if y :| y in s && y < x {
      HasMinimum(s, y);
    }
  }

  function Minimum(s: set<nat>): (x: nat)
    requires s != {}
    ensures x in s && forall y :: y in s ==> x <= y
  {
    var some :| some in s;
    HasMinimum(s, some);
    var x :| x in s && forall y :: y in s ==> x <= y;
    x
  }

  /** The elements of a set in ascending order, the order in which a std::map is walked. */
  function Ascending(s: set<nat>): seq<nat> {
    if s == {} then [] else [Minimum(s)] + Ascending(s - {Minimum(s)})
  }

  lemma {:induction false} SmallerSet(s: set<nat>)
    requires s != {}
    ensures var rest := s - {Minimum(s)};
            && |rest| == |s| - 1 && rest < s
            && forall x :: x in rest ==> Minimum(s) < x
  {
  }

  lemma {:induction false} AscendingMembers(s: set<nat>)
    ensures |Ascending(s)| == |s|
    ensures forall x :: x in Ascending(s) <==> x in s
  {
    if s != {} {
      SmallerSet(s);
      AscendingMembers(s - {Minimum(s)});
    }
  }

  lemma {:induction false} AscendingIsSorted(s: set<nat>)
    ensures |Ascending(s)| == |s|
    ensures forall x :: x in Ascending(s) <==> x in s
    ensures forall i, j :: 0 <= i < j < |Ascending(s)| ==> Ascending(s)[i] < Ascending(s)[j]
  {
    AscendingMembers(s);
    if s != {} {
      var rest := s - {Minimum(s)};
      SmallerSet(s);
      AscendingIsSorted(rest);
      forall i, j | 0 <= i < j < |Ascending(s)|
        ensures Ascending(s)[i] < Ascending(s)[j]
      {
        assert Ascending(rest)[j - 1] in rest;
        assert Ascending(s)[j] == Ascending(rest)[j - 1];
        if i > 0 {
          assert Ascending(s)[i] == Ascending(rest)[i - 1];
        }
      }
    }
  }

  function AttrsInOrder(pieces: seq<Piece>, wiphy: nat, ids: seq<nat>): (attrs: seq<Attr>)
    ensures |attrs| == |ids|
    ensures forall i :: 0 <= i < |ids| ==> attrs[i] == Attr(ids[i], Joined(pieces, wiphy, ids[i]).GetOr([]))
  {
    seq(|ids|, i requires 0 <= i < |ids| => Attr(ids[i], Joined(pieces, wiphy, ids[i]).GetOr([])))
  }

  /** The attributes of the packet built for one wiphy. */
  function MergedAttrs(pieces: seq<Piece>, wiphy: nat): seq<Attr> {
    [Attr(NL80211_ATTR_WIPHY, LittleEndian(wiphy, 4))]
    + AttrsInOrder(pieces, wiphy, Ascending(Ids(pieces, wiphy)))
  }

  const MERGED_HEADER: Header := Header(0, NLM_F_REQUEST, 0, 0, NL80211_CMD_NEW_WIPHY)

  function MergedPacket(pieces: seq<Piece>, wiphy: nat): Buffer {
    EncodePacket(MERGED_HEADER, EncodeAll(MergedAttrs(pieces, wiphy)))
  }

  // ---- the maps the merge builds ----

  type AttrMap = map<nat, Buffer>
  type WiphyMap = map<nat, AttrMap>

  /** The map of maps holds exactly the joined payloads of the pieces seen so far. */
  ghost predicate Holds(m: WiphyMap, pieces: seq<Piece>) {
    && (forall w: nat, id: nat :: (w in m && id in m[w]) <==> Joined(pieces, w, id).Some?)
    && (forall w: nat, id: nat :: w in m && id in m[w] ==>
          m[w][id] == Encode(Attr(id, Joined(pieces, w, id).value)))
    && (forall w: nat :: w in m ==> m[w] != map[])
  }

  lemma {:induction false} JoinedDomain(pieces: seq<Piece>, wiphy: nat, id: nat)
    ensures Joined(pieces, wiphy, id).Some? <==> id in Ids(pieces, wiphy)
  {
    if pieces != [] {
      var before, last := pieces[..|pieces| - 1], pieces[|pieces| - 1];
      JoinedDomain(before, wiphy, id);
      assert forall i :: 0 <= i < |before| ==> before[i] == pieces[i];
      if id in Ids(before, wiphy) {
        var i :| 0 <= i < |before| && before[i].wiphy == wiphy && before[i].attr.id == id;
        assert pieces[i].attr.id == id;
      }
    }
  }

  lemma {:induction false} JoinedGrows(pieces: seq<Piece>, more: seq<Piece>, wiphy: nat, id: nat)
    requires Joined(pieces, wiphy, id).Some?
    ensures Joined(pieces + more, wiphy, id).Some?
    ensures |Joined(pieces, wiphy, id).value| <= |Joined(pieces + more, wiphy, id).value|
  {
    if more == [] {
      assert pieces + more == pieces;
    } else {
      JoinedGrows(pieces, more[..|more| - 1], wiphy, id);
      assert (pieces + more)[..|pieces + more| - 1] == pieces + more[..|more| - 1];
    }
  }

  lemma {:induction false} PrefixFits(pieces: seq<Piece>, more: seq<Piece>)
    requires JoinedFit(pieces + more)
    ensures JoinedFit(pieces)
  {
    forall w: nat, id: nat | Joined(pieces, w, id).Some?
      ensures Fits(Attr(id, Joined(pieces, w, id).value))
    {
      JoinedGrows(pieces, more, w, id);
    }
  }

  lemma {:induction false} AllPiecesPrefix(bodies: seq<Buffer>, k: nat)
    requires k <= |bodies| && AllReadable(bodies)
    ensures AllPieces(bodies[..k]) <= AllPieces(bodies)
  {
    if k == |bodies| {
      assert bodies[..k] == bodies;
    } else {
      AllPiecesPrefix(bodies[..|bodies| - 1], k);
      assert bodies[..|bodies| - 1][..k] == bodies[..k];
    }
  }

  lemma {:induction false} PiecesOfPrefix(wiphy: nat, attrs: seq<Attr>, k: nat)
    requires k <= |attrs|
    ensures PiecesOf(wiphy, attrs[..k]) <= PiecesOf(wiphy, attrs)
  {
    if k == |attrs| {
      assert attrs[..k] == attrs;
    } else {
      PiecesOfPrefix(wiphy, attrs[..|attrs| - 1], k);
      assert attrs[..|attrs| - 1][..k] == attrs[..k];
    }
  }

  function Stored(m: WiphyMap, wiphy: nat, id: nat, bytes: Buffer): WiphyMap {
    m[wiphy := (if wiphy in m then m[wiphy] else map[])[id := bytes]]
  }

  lemma {:induction false} JoinedSnoc(pieces: seq<Piece>, piece: Piece, w: nat, id: nat)
    ensures Joined(pieces + [piece], w, id) ==
            if w == piece.wiphy && id == piece.attr.id
            then Some(Joined(pieces, w, id).GetOr([]) + piece.attr.payload)
            else Joined(pieces, w, id)
  {
    assert (pieces + [piece])[..|pieces|] == pieces;
  }

  /** Putting one attribute into the map, by insertion or by merging, keeps what the map holds. */
  lemma {:induction false} HoldsStep(m: WiphyMap, pieces: seq<Piece>, piece: Piece)
    requires Holds(m, pieces)
    ensures var Piece(wiphy, attr) := piece;
            var joined := Attr(attr.id, Joined(pieces, wiphy, attr.id).GetOr([]) + attr.payload);
            Holds(Stored(m, wiphy, attr.id, Encode(joined)), pieces + [piece])
  {
    var Piece(wiphy, attr) := piece;
    var joined := Attr(attr.id, Joined(pieces, wiphy, attr.id).GetOr([]) + attr.payload);
    var after := Stored(m, wiphy, attr.id, Encode(joined));
    forall w: nat, id: nat
      ensures (w in after && id in after[w]) <==> Joined(pieces + [piece], w, id).Some?
      ensures w in after && id in after[w] ==> after[w][id] == Encode(Attr(id, Joined(pieces + [piece], w, id).value))
    {
      JoinedSnoc(pieces, piece, w, id);
      assert (w in m && id in m[w]) <==> Joined(pieces, w, id).Some?;
    }
    assert attr.id in after[wiphy];
  }

  lemma {:induction false} HoldsDomain(m: WiphyMap, pieces: seq<Piece>)
    requires Holds(m, pieces)
    ensures m.Keys == Wiphys(pieces)
    ensures forall w: nat :: w in m ==> m[w].Keys == Ids(pieces, w)
  {
    forall w: nat, id: nat
      ensures (w in m && id in m[w]) <==> id in Ids(pieces, w)
    {
      JoinedDomain(pieces, w, id);
    }
    forall w: nat
      ensures w in m <==> w in Wiphys(pieces)
    {
      if w in m {
        assert m[w] != map[];
        var id :| id in m[w];
        assert id in Ids(pieces, w);
      }
      if w in Wiphys(pieces) {
        var i :| 0 <= i < |pieces| && pieces[i].wiphy == w;
        assert pieces[i].attr.id in Ids(pieces, w);
      }
    }
  }

  // ---- the merge itself ----

  /** An id seen for the first time goes into the map as it is. */
  lemma {:induction false} InsertStep(m: WiphyMap, pieces: seq<Piece>, piece: Piece)
    requires Holds(m, pieces)
    requires piece.wiphy !in m || piece.attr.id !in m[piece.wiphy]
    ensures Holds(Stored(m, piece.wiphy, piece.attr.id, Encode(piece.attr)), pieces + [piece])
  {
    HoldsStep(m, pieces, piece);
    assert Joined(pieces, piece.wiphy, piece.attr.id) == None;
    assert [] + piece.attr.payload == piece.attr.payload;
  }

  /** An id seen before is merged into what the map has. */
  lemma {:induction false} MergeStep(m: WiphyMap, pieces: seq<Piece>, piece: Piece)
    requires Holds(m, pieces) && JoinedFit(pieces) && Fits(piece.attr)
    requires piece.wiphy in m && piece.attr.id in m[piece.wiphy]
    ensures var ours, others := m[piece.wiphy][piece.attr.id], Encode(piece.attr);
            && HasPayload(ours) && HasPayload(others) && IdOf(ours) == IdOf(others)
            && Holds(Stored(m, piece.wiphy, piece.attr.id, MergedBytes(ours, others)), pieces + [piece])
  {
    HoldsStep(m, pieces, piece);
    EncodeRoundTrip(Attr(piece.attr.id, Joined(pieces, piece.wiphy, piece.attr.id).value));
    EncodeRoundTrip(piece.attr);
  }

  /** The pieces seen when `i` attributes of a fragment are in the map. */
  function Seen(pieces: seq<Piece>, wiphy: nat, attrs: seq<Attr>, i: nat): seq<Piece>
    requires i <= |attrs|
  {
    pieces + PiecesOf(wiphy, attrs[..i])
  }

  lemma {:induction false} SeenStep(pieces: seq<Piece>, wiphy: nat, attrs: seq<Attr>, i: nat)
    requires i < |attrs|
    ensures Seen(pieces, wiphy, attrs, i + 1) ==
            Seen(pieces, wiphy, attrs, i) + if IsFilter(attrs[i].id) then [] else [Piece(wiphy, attrs[i])]
  {
    assert attrs[..i + 1][..i] == attrs[..i];
  }

  lemma {:induction false} SeenFits(pieces: seq<Piece>, wiphy: nat, attrs: seq<Attr>, i: nat)
    requires i <= |attrs| && JoinedFit(pieces + PiecesOf(wiphy, attrs))
    ensures JoinedFit(Seen(pieces, wiphy, attrs, i))
  {
    PiecesOfPrefix(wiphy, attrs, i);
    var rest := PiecesOf(wiphy, attrs)[|PiecesOf(wiphy, attrs[..i])|..];
    assert pieces + PiecesOf(wiphy, attrs) == Seen(pieces, wiphy, attrs, i) + rest;
    PrefixFits(Seen(pieces, wiphy, attrs, i), rest);
  }

  /** The attribute of the map, with the payload of one more attribute appended. */
  method MergeInto(bytes: Buffer, attr: NL80211Attr) returns (merged: Buffer)
    requires HasPayload(bytes) && HasPayload(attr.data) && IdOf(bytes) == IdOf(attr.data)
    ensures merged == MergedBytes(bytes, attr.data)
  {
    var ours := new NL80211Attr.FromBuffer(bytes);
    var ok := ours.Merge(attr);
    return ours.data;
  }

  /** One attribute of a fragment goes into the map of its wiphy. */
  method AddAttributeToMap(m: WiphyMap, wiphy: nat, attr: NL80211Attr, ghost a: Attr, ghost pieces: seq<Piece>)
    returns (after: WiphyMap)
    requires Fits(a) && attr.data == Encode(a)
    requires Holds(m, pieces) && JoinedFit(pieces)
    ensures Holds(after, pieces + if IsFilter(a.id) then [] else [Piece(wiphy, a)])
  {
    EncodedId(a);
    var attrId := attr.GetAttributeId();
    if IsFilter(attrId) {
      assert pieces + [] == pieces;
      return m;
    }
    if wiphy !in m || attrId !in m[wiphy] {
      InsertStep(m, pieces, Piece(wiphy, a));
      return Stored(m, wiphy, attrId, attr.data);
    }
    MergeStep(m, pieces, Piece(wiphy, a));
    var merged := MergeInto(m[wiphy][attrId], attr);
    return Stored(m, wiphy, attrId, merged);
  }

  /** The inner loop: every attribute of one fragment goes into the map. */
  method AddAttributes(m: WiphyMap, wiphy: nat, attributes: seq<NL80211Attr>,
                       ghost attrs: seq<Attr>, ghost pieces: seq<Piece>)
    returns (after: WiphyMap)
    requires AllFit(attrs) && |attributes| == |attrs|
    requires forall i :: 0 <= i < |attrs| ==> attributes[i].data == Encode(attrs[i])
    requires Holds(m, pieces) && JoinedFit(pieces + PiecesOf(wiphy, attrs))
    ensures Holds(after, pieces + PiecesOf(wiphy, attrs))
  {
    after := m;
    assert Seen(pieces, wiphy, attrs, 0) == pieces;
    for i := 0 to |attributes|
      invariant Holds(after, Seen(pieces, wiphy, attrs, i))
    {
      SeenFits(pieces, wiphy, attrs, i);
      SeenStep(pieces, wiphy, attrs, i);
      after := AddAttributeToMap(after, wiphy, attributes[i], attrs[i], Seen(pieces, wiphy, attrs, i));
    }
    assert attrs[..|attrs|] == attrs;
  }

  /** The bytes of a map of attributes in the given order of ids. */
  function Concatenated(attrs: AttrMap, ids: seq<nat>): Buffer
    requires forall id :: id in ids ==> id in attrs
  {
    if ids == [] then [] else Concatenated(attrs, ids[..|ids| - 1]) + attrs[ids[|ids| - 1]]
  }

  /** The body of a packet under construction, with the first `i` attributes of its map. */
  function BuiltBody(wiphy: nat, attrs: AttrMap, ids: seq<nat>, i: nat): Buffer
    requires i <= |ids| && forall id :: id in ids ==> id in attrs
  {
    Encode(Attr(NL80211_ATTR_WIPHY, LittleEndian(wiphy, 4))) + Concatenated(attrs, ids[..i])
  }

  function KeysInOrder<V>(m: map<nat, V>): (keys: seq<nat>)
    ensures forall i :: 0 <= i < |keys| ==> keys[i] in m
  {
    AscendingIsSorted(m.Keys);
    Ascending(m.Keys)
  }

  function BuiltAll(wiphy: nat, attrs: AttrMap): Buffer {
    BuiltBody(wiphy, attrs, KeysInOrder(attrs), |KeysInOrder(attrs)|)
  }

  lemma {:induction false} BuiltBodyStep(wiphy: nat, attrs: AttrMap, ids: seq<nat>, i: nat)
    requires i < |ids| && forall id :: id in ids ==> id in attrs
    ensures BuiltBody(wiphy, attrs, ids, i + 1) == BuiltBody(wiphy, attrs, ids, i) + attrs[ids[i]]
  {
    assert ids[..i + 1][..i] == ids[..i];
  }

  method BuildPacket(wiphy: nat, attrs: AttrMap) returns (newWiphy: NL80211Packet)
    ensures fresh(newWiphy)
    ensures newWiphy.data == EncodePacket(MERGED_HEADER, BuiltAll(wiphy, attrs))
  {
    newWiphy := new NL80211Packet(0, NL80211_CMD_NEW_WIPHY, 0, 0);
    var wiphyAttr := new NL80211Attr.Integral(NL80211_ATTR_WIPHY, wiphy, 4);
    newWiphy.AddAttribute(wiphyAttr);
    AppendToPacket(MERGED_HEADER, [], wiphyAttr.data);
    var ids := KeysInOrder(attrs);
    assert BuiltBody(wiphy, attrs, ids, 0) == [] + wiphyAttr.data;
    for i := 0 to |ids|
      invariant fresh(newWiphy)
      invariant newWiphy.data == EncodePacket(MERGED_HEADER, BuiltBody(wiphy, attrs, ids, i))
    {
      var attr := new NL80211Attr.FromBuffer(attrs[ids[i]]);
      AppendToPacket(MERGED_HEADER, BuiltBody(wiphy, attrs, ids, i), attr.data);
      BuiltBodyStep(wiphy, attrs, ids, i);
      newWiphy.AddAttribute(attr);
    }
  }

  lemma {:induction false} AttrsInOrderSnoc(pieces: seq<Piece>, wiphy: nat, ids: seq<nat>)
    requires ids != []
    ensures var n := |ids| - 1;
            AttrsInOrder(pieces, wiphy, ids) ==
            AttrsInOrder(pieces, wiphy, ids[..n]) + [Attr(ids[n], Joined(pieces, wiphy, ids[n]).GetOr([]))]
  {
  }

  lemma {:induction false} ConcatenatedIsEncoded(m: WiphyMap, pieces: seq<Piece>, wiphy: nat, ids: seq<nat>)
    requires Holds(m, pieces) && wiphy in m && forall id :: id in ids ==> id in m[wiphy]
    ensures Concatenated(m[wiphy], ids) == EncodeAll(AttrsInOrder(pieces, wiphy, ids))
  {
    if ids != [] {
      var front, last := ids[..|ids| - 1], ids[|ids| - 1];
      ConcatenatedIsEncoded(m, pieces, wiphy, front);
      AttrsInOrderSnoc(pieces, wiphy, ids);
      var one := Attr(last, Joined(pieces, wiphy, last).GetOr([]));
      EncodeAllAppend(AttrsInOrder(pieces, wiphy, front), [one]);
      EncodeAllOne(one);
    }
  }

  lemma {:induction false} BuiltIsMerged(m: WiphyMap, pieces: seq<Piece>, wiphy: nat)
    requires Holds(m, pieces) && wiphy in m
    ensures EncodePacket(MERGED_HEADER, BuiltAll(wiphy, m[wiphy])) == MergedPacket(pieces, wiphy)
  {
    HoldsDomain(m, pieces);
    var ids := KeysInOrder(m[wiphy]);
    assert ids[..|ids|] == ids;
    ConcatenatedIsEncoded(m, pieces, wiphy, ids);
    var attrs := MergedAttrs(pieces, wiphy);
    assert attrs[1..] == AttrsInOrder(pieces, wiphy, ids);
  }

  method BuildMerged(m: WiphyMap, wiphy: nat, ghost pieces: seq<Piece>) returns (newWiphy: NL80211Packet)
    requires Holds(m, pieces) && wiphy in m
    ensures fresh(newWiphy) && newWiphy.data == MergedPacket(pieces, wiphy)
  {
    newWiphy := BuildPacket(wiphy, m[wiphy]);
    BuiltIsMerged(m, pieces, wiphy);
  }

  /** `after` is `before` and the merged packets of the given wiphys, in that order. */
  ghost predicate Built(before: seq<NL80211Packet>, after: seq<NL80211Packet>, pieces: seq<Piece>, wiphys: seq<nat>)
    reads after
  {
    && before <= after
    && |after| == |before| + |wiphys|
    && forall i :: 0 <= i < |wiphys| ==> after[|before| + i].data == MergedPacket(pieces, wiphys[i])
  }

  lemma {:induction false} BuiltStep(before: seq<NL80211Packet>, after: seq<NL80211Packet>, pieces: seq<Piece>, wiphys: seq<nat>,
                  newWiphy: NL80211Packet, wiphy: nat)
    requires Built(before, after, pieces, wiphys) && newWiphy.data == MergedPacket(pieces, wiphy)
    ensures Built(before, after + [newWiphy], pieces, wiphys + [wiphy])
  {
    forall i | 0 <= i < |wiphys| + 1
      ensures (after + [newWiphy])[|before| + i].data == MergedPacket(pieces, (wiphys + [wiphy])[i])
    {
      if i < |wiphys| {
        assert (after + [newWiphy])[|before| + i] == after[|before| + i];
      }
    }
  }

  /** The second loop: one packet per wiphy of the map. */
  method BuildPackets(m: WiphyMap, before: seq<NL80211Packet>, ghost pieces: seq<Piece>)
    returns (packetPerWiphy: seq<NL80211Packet>)
    requires Holds(m, pieces)
    ensures Built(before, packetPerWiphy, pieces, Ascending(Wiphys(pieces)))
    ensures forall i :: |before| <= i < |packetPerWiphy| ==> fresh(packetPerWiphy[i])
  {
    HoldsDomain(m, pieces);
    var wiphys := KeysInOrder(m);
    packetPerWiphy := before;
    for i := 0 to |wiphys|
      invariant Built(before, packetPerWiphy, pieces, wiphys[..i])
      invariant forall j :: |before| <= j < |packetPerWiphy| ==> fresh(packetPerWiphy[j])
    {
      var newWiphy := BuildMerged(m, wiphys[i], pieces);
      BuiltStep(before, packetPerWiphy, pieces, wiphys[..i], newWiphy, wiphys[i]);
      packetPerWiphy := packetPerWiphy + [newWiphy];
      assert wiphys[..i + 1] == wiphys[..i] + [wiphys[i]] by { PrefixSnoc(wiphys, i); }
    }
    assert wiphys[..|wiphys|] == wiphys;
  }

  predicate AllMergeable(bodies: seq<Buffer>) {
    forall i :: 0 <= i < |bodies| ==> Mergeable(bodies[i])
  }

  lemma {:induction false} AllMergeableStep(bodies: seq<Buffer>, k: nat)
    requires k < |bodies| && AllMergeable(bodies[..k]) && Mergeable(bodies[k])
    ensures AllMergeable(bodies[..k + 1])
  {
    PrefixSnoc(bodies, k);
    AllMergeableSnoc(bodies[..k], bodies[k]);
  }

  lemma {:induction false} AllMergeableSnoc(bodies: seq<Buffer>, body: Buffer)
    requires AllMergeable(bodies) && Mergeable(body)
    ensures AllMergeable(bodies + [body])
  {
  }

  lemma {:induction false} AttrListFits(body: Buffer)
    requires NoShortHeaders(body)
    ensures AllFit(AttrList(body))
  {
  }

  /** The contributions of the first `k` fragments. */
  function PiecesBefore(bodies: seq<Buffer>, k: nat): seq<Piece>
    requires k <= |bodies| && AllReadable(bodies)
  {
    AllPieces(bodies[..k])
  }

  /** After one more fragment: what it adds to the pieces, and that the joined lengths still fit. */
  lemma {:induction false} FragmentStep(bodies: seq<Buffer>, k: nat)
    requires k < |bodies| && AllReadable(bodies) && JoinedFit(AllPieces(bodies))
    ensures Readable(bodies[k])
    ensures PiecesBefore(bodies, k + 1)
         == PiecesBefore(bodies, k) + PiecesOf(WiphyOf(bodies[k]).GetOr(0), AttrList(bodies[k]))
    ensures JoinedFit(PiecesBefore(bodies, k + 1)) && AllFit(AttrList(bodies[k]))
  {
    assert bodies[..k + 1][..k] == bodies[..k];
    AllPiecesPrefix(bodies, k + 1);
    var soFar := AllPieces(bodies[..k + 1]);
    assert AllPieces(bodies) == soFar + AllPieces(bodies)[|soFar|..];
    PrefixFits(soFar, AllPieces(bodies)[|soFar|..]);
    AttrListFits(bodies[k]);
  }

  /** The packets carry these bodies. */
  ghost predicate HaveBodies(packets: seq<NL80211Packet>, bodies: seq<Buffer>)
    reads packets
  {
    && |packets| == |bodies|
    && forall i :: 0 <= i < |bodies| ==> |packets[i].data| >= HDRLEN && packets[i].data[HDRLEN..] == bodies[i]
  }

  /** The attributes of one fragment go into the map, unless the fragment is bad. */
  method CollectFragment(packet: NL80211Packet, m: WiphyMap, ghost body: Buffer, ghost pieces: seq<Piece>)
    returns (ok: bool, after: WiphyMap)
    requires |packet.data| >= HDRLEN && packet.data[HDRLEN..] == body
    requires Readable(body) && Holds(m, pieces)
    requires JoinedFit(pieces + PiecesOf(WiphyOf(body).GetOr(0), AttrList(body))) && AllFit(AttrList(body))
    ensures ok == Mergeable(body)
    ensures ok ==> Holds(after, pieces + PiecesOf(WiphyOf(body).GetOr(0), AttrList(body)))
  {
    var found, wiphyIndex := packet.GetUIntValue(NL80211_ATTR_WIPHY, 4, 0);
    if !found {
      return false, m;
    }
    var read, attributes := packet.GetAllAttributes([]);
    if !read {
      return false, m;
    }
    ok := true;
    after := AddAttributes(m, wiphyIndex, attributes, AttrList(body), pieces);
  }

  /** The first loop: the attributes of every fragment go into the map, unless one fragment is bad. */
  method CollectAttributes(splitDump: seq<NL80211Packet>, ghost bodies: seq<Buffer>)
    returns (ok: bool, m: WiphyMap)
    requires HaveBodies(splitDump, bodies) && AllReadable(bodies)
    requires JoinedFit(AllPieces(bodies))
    ensures ok == AllMergeable(bodies)
    ensures ok ==> Holds(m, AllPieces(bodies))
  {
    m := map[];
    for k := 0 to |splitDump|
      invariant Holds(m, PiecesBefore(bodies, k)) && AllMergeable(bodies[..k])
    {
      FragmentStep(bodies, k);
      ok, m := CollectFragment(splitDump[k], m, bodies[k], PiecesBefore(bodies, k));
      if !ok {
        return false, m;
      }
      AllMergeableStep(bodies, k);
    }
    assert bodies[..|bodies|] == bodies;
    ok := true;
  }

  /**
     Merges a dump. On success, the output gains one packet per wiphy that contributed an attribute,
     in ascending order of wiphy; on failure it is untouched.
   */
  method MergePacketsForSplitWiphyDump(splitDump: seq<NL80211Packet>, before: seq<NL80211Packet>,
                                       ghost bodies: seq<Buffer>)
    returns (ok: bool, packetPerWiphy: seq<NL80211Packet>)
    requires HaveBodies(splitDump, bodies) && AllReadable(bodies)
    requires JoinedFit(AllPieces(bodies))
    ensures ok == AllMergeable(bodies)
    ensures !ok ==> packetPerWiphy == before
    ensures ok ==> Built(before, packetPerWiphy, AllPieces(bodies), Ascending(Wiphys(AllPieces(bodies))))
    ensures forall i :: |before| <= i < |packetPerWiphy| ==> fresh(packetPerWiphy[i])
  {
    var m;
    ok, m := CollectAttributes(splitDump, bodies);
    if !ok {
      return false, before;
    }
    packetPerWiphy := BuildPackets(m, before, AllPieces(bodies));
  }
}
