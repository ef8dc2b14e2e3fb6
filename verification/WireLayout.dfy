/**
 The bytes on the wire: attributes and packets field by field (section 2.3.2 of RFC 3549 for the message header), so
 that another implementation can read them, and what is taken for a packet, an element or a string in any bytes.
 */
module WireLayout {
  import opened Bytes
  import opened Filters
  import opened AttributeFormat
  import opened Nl80211Attribute
  import opened Nl80211Packet
  import opened SplitWiphyDump
  import opened InfoElement

  // ---- integers ----

  lemma {:induction false} DivideTwice(v: nat, k: nat)
    requires k > 0
    ensures v / (256 * k) == v / 256 / k
  {
    var q, r := v / 256, v % 256;
    var p, t := q / k, q % k;
    assert v == 256 * q + r && q == k * p + t;
    assert v == 256 * k * p + (256 * t + r);
    assert 256 * t + r < 256 * k;
    QuotientIs(v, 256 * k, p, 256 * t + r);
  }

  lemma {:induction false} QuotientIs(v: nat, d: nat, p: nat, r: nat)
    requires d > 0 && v == d * p + r && r < d
    ensures v / d == p
  {
    var q, s := v / d, v % d;
    assert v == d * q + s;
    assert q < p ==> d * p >= d * (q + 1) == d * q + d;
    assert p < q ==> d * q >= d * (p + 1) == d * p + d;
  }

  lemma {:induction false} Pow256IsPositive(n: nat)
    ensures Pow256(n) > 0
  {
    if n > 0 {
      Pow256IsPositive(n - 1);
    }
  }

  /** The least significant byte comes first. */
  lemma {:induction false} ByteOfInteger(v: nat, width: nat, i: nat)
    requires i < width
    ensures Pow256(i) > 0 && LittleEndian(v, width)[i] as int == v / Pow256(i) % 256
  {
    Pow256IsPositive(i);
    if i > 0 {
      Pow256IsPositive(i - 1);
      ByteOfInteger(v / 256, width - 1, i - 1);
      DivideTwice(v, Pow256(i - 1));
    }
  }

  /** Two bytes, least significant first. */
  predicate Holds16(b: Buffer, i: nat, v: nat)
    requires i + 2 <= |b|
  {
    b[i] as int + 0x100 * b[i + 1] as int == v
  }

  /** Four bytes, least significant first. */
  predicate Holds32(b: Buffer, i: nat, v: nat)
    requires i + 4 <= |b|
  {
    b[i] as int + 0x100 * b[i + 1] as int + 0x1_0000 * b[i + 2] as int + 0x100_0000 * b[i + 3] as int == v
  }

  lemma {:induction false} U32Holds(b: Buffer, i: nat)
    requires i + 4 <= |b|
    ensures Holds32(b, i, U32At(b, i))
  {
    var f, g, h, l := b[i..i + 4], b[i + 1..i + 4], b[i + 2..i + 4], b[i + 3..i + 4];
    assert f[1..] == g && g[1..] == h && h[1..] == l && l[1..] == [];
    assert Value(l) == b[i + 3] as int;
    assert Value(h) == b[i + 2] as int + 0x100 * Value(l);
    assert Value(g) == b[i + 1] as int + 0x100 * Value(h);
  }

  // ---- attributes ----

  /** A length that leaves out the padding, a type, the payload, and zeros up to a multiple of four. */
  lemma {:induction false} AttributeBytes(a: Attr)
    requires Fits(a)
    ensures var b, end := Encode(a), 4 + |a.payload|;
            && |b| % 4 == 0 && end <= |b| < end + 4
            && Holds16(b, 0, end) && Holds16(b, 2, a.id) && b[4..end] == a.payload
            && (forall k :: end <= k < |b| ==> b[k] == 0)
  {
    var b, end := Encode(a), 4 + |a.payload|;
    AlignPastHeader(|a.payload|);
    assert |b| == NlaAlign(end);
    assert |b| % 4 == 0 && end <= |b| < end + 4;
    assert Holds16(b, 0, end) && Holds16(b, 2, a.id) by {
      assert b[0] == Put16(end)[0] && b[1] == Put16(end)[1];
      assert b[2] == Put16(a.id)[0] && b[3] == Put16(a.id)[1];
    }
    assert b[4..end] == a.payload;
    var padding := b[end..];
    assert padding == Zeros(NlaAlign(|a.payload|) - |a.payload|);
    forall k | end <= k < |b|
      ensures b[k] == 0
    {
      assert b[k] == padding[k - end] == 0;
    }
  }

  // ---- packets ----

  lemma {:induction false} PidReads(h: Header, body: Buffer)
    requires FitsHeader(h)
    ensures U32At(EncodePacket(h, body), 12) == h.pid
  {
    var pre := Put32(HDRLEN + |body|) + Put16(h.messageType) + Put16(h.flags) + Put32(h.sequence);
    var post := [(h.command % 256) as u8, 1, 0, 0] + body;
    assert EncodePacket(h, body) == pre + Put32(h.pid) + post;
    Put32Reads(pre, h.pid, post);
  }

  /** Length, type, flags, sequence number and port of the message, then command and version 1, then the attributes. */
  lemma {:induction false} PacketBytes(h: Header, body: Buffer)
    requires FitsHeader(h) && 20 + |body| < 0x1_0000_0000
    ensures var b := EncodePacket(h, body);
            && |b| == 20 + |body| && Holds32(b, 0, |b|) && Holds16(b, 4, h.messageType) && Holds16(b, 6, h.flags)
            && Holds32(b, 8, h.sequence) && Holds32(b, 12, h.pid)
            && b[16] as int == h.command && b[17..20] == [1, 0, 0] && b[20..] == body
  {
    var b := EncodePacket(h, body);
    EncodedPacketIsValid(h, body);
    PidReads(h, body);
    U32Holds(b, 0);
    U32Holds(b, 8);
    U32Holds(b, 12);
    assert b[17..20] == [1, 0, 0];
  }

  /** What is built as a merged packet of a wiphy: command 3, and no type, sequence number or port. */
  lemma {:induction false} MergedPacketBytes(pieces: seq<Piece>, wiphy: nat)
    requires 20 + |EncodeAll(MergedAttrs(pieces, wiphy))| < 0x1_0000_0000
    ensures var b := MergedPacket(pieces, wiphy);
            && Holds32(b, 0, |b|) && Holds16(b, 4, 0) && Holds16(b, 6, 1) && Holds32(b, 8, 0) && Holds32(b, 12, 0)
            && b[16] == 3
  {
    PacketBytes(MERGED_HEADER, EncodeAll(MergedAttrs(pieces, wiphy)));
  }

  /** How much of a message its type asks for: the generic header, or the code of an error (2). */
  function LeastLength(messageType: nat): nat {
    if messageType == 2 || messageType >= 16 then 20 else 16
  }

  /** A packet is valid exactly if its length covers the headers of its type and no more than the bytes there are. */
  lemma {:induction false} ValidPackets(b: Buffer)
    ensures IsValidPacket(b) <==> |b| >= 16 && LeastLength(U16At(b, 4)) <= U32At(b, 0) <= |b|
  {
  }

  /** No packet that was cut short is valid. */
  lemma {:induction false} CutPacketIsInvalid(h: Header, body: Buffer, k: nat)
    requires 20 + |body| < 0x1_0000_0000 && k < 20 + |body|
    ensures !IsValidPacket(EncodePacket(h, body)[..k])
  {
    var b := EncodePacket(h, body);
    LengthReads(h, body);
    if k >= 16 {
      assert b[..k][0..4] == b[0..4];
    }
  }

  /** A dump is asked for by bit 8 or bit 9 of the flags. */
  lemma {:induction false} DumpFlags(b: Buffer)
    requires |b| >= 16
    ensures IsDump(b) <==> Bit(U16At(b, 6), 8) || Bit(U16At(b, 6), 9)
  {
    AndOfTwoBits(U16At(b, 6), 8);
    assert Pow2(8) == 256 && Pow2(9) == 512;
  }

  lemma {:induction false} AndOfTwoBits(x: nat, n: nat)
    ensures BitAnd(x, Pow2(n) + Pow2(n + 1)) != 0 <==> Bit(x, n) || Bit(x, n + 1)
  {
    if x == 0 {
      ZeroHasNoBits(n);
      ZeroHasNoBits(n + 1);
    } else if n > 0 {
      AndOfTwoBits(x / 2, n - 1);
      Pow2IsPositive(n);
    } else {
      assert Pow2(0) + Pow2(1) == 3;
      AndTestsBit(x / 2, 0);
      assert Pow2(0) == 1;
    }
  }

  // ---- pieces of a dump ----

  /** A fragment contributes all its attributes but those with the ids 1, 3 and 153, each once and in order. */
  lemma {:induction false} PiecesAreSelected(wiphy: nat, attrs: seq<Attr>)
    ensures IsSelection(PiecesOf(wiphy, attrs), attrs, (a: Attr) => a.id !in {1, 3, 153}, (a: Attr) => Piece(wiphy, a))
  {
    PiecesAreFiltered(wiphy, attrs, (a: Attr) => a.id !in {1, 3, 153}, (a: Attr) => Piece(wiphy, a));
    FilteredIsSelection(attrs, (a: Attr) => a.id !in {1, 3, 153}, (a: Attr) => Piece(wiphy, a));
  }

  lemma {:induction false} PiecesAreFiltered(wiphy: nat, attrs: seq<Attr>, wanted: Attr -> bool, value: Attr -> Piece)
    requires forall a: Attr :: wanted(a) <==> a.id !in {1, 3, 153}
    requires forall a: Attr :: value(a) == Piece(wiphy, a)
    ensures PiecesOf(wiphy, attrs) == Filtered(attrs, wanted, value)
  {
    if attrs != [] {
      PiecesAreFiltered(wiphy, attrs[..|attrs| - 1], wanted, value);
    }
  }

  // ---- elements and strings ----

  predicate IsFirstSsid(elements: seq<Element>, i: nat) {
    i < |elements| && elements[i].id == 0 && forall j :: 0 <= j < i ==> elements[j].id != 0
  }

  /** The SSID is the value of the first element with the identifier 0, and there is none without such an element. */
  lemma {:induction false} SsidIsFirst(elements: seq<Element>)
    ensures match FirstSsid(elements)
            case Some(ssid) => exists i: nat :: IsFirstSsid(elements, i) && elements[i].value == ssid
            case None => forall i :: 0 <= i < |elements| ==> elements[i].id != 0
  {
    if elements != [] {
      if elements[0].id == 0 {
        assert IsFirstSsid(elements, 0);
      } else {
        SsidIsFirst(elements[1..]);
        if i: nat :| IsFirstSsid(elements[1..], i) && FirstSsid(elements) == Some(elements[1..][i].value) {
          assert forall j :: 0 < j < |elements| ==> elements[j] == elements[1..][j - 1];
          assert IsFirstSsid(elements, i + 1);
        }
        if FirstSsid(elements) == None {
          assert forall j :: 0 < j < |elements| ==> elements[j] == elements[1..][j - 1];
        }
      }
    }
  }

  /** Of a string the zeros at its end are cut off, and nothing else. */
  lemma {:induction false} TrimmedString(s: Buffer)
    ensures var r := TrimZeros(s);
            s == r + Zeros(|s| - |r|) && (r == [] || r[|r| - 1] != 0)
  {
    if s != [] && s[|s| - 1] == 0 {
      TrimmedString(s[..|s| - 1]);
      var r := TrimZeros(s);
      FrontAndLast(s);
      assert Zeros(|s| - |r|) == Zeros(|s| - 1 - |r|) + [0];
      Regroup(r, Zeros(|s| - 1 - |r|), [0]);
    } else {
      assert s == s + Zeros(0);
    }
  }
}
