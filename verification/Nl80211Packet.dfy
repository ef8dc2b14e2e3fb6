/**
 nl80211 packets: a netlink message header (section 2.3.2 of RFC 3549), a generic netlink header
 and a list of attributes. Integers are stored in little-endian order.
 */
module Nl80211Packet {
  import opened Bytes
  import opened AttributeFormat
  import opened Nl80211Attribute

  const NLMSG_HDRLEN: nat := 16
  const GENL_HDRLEN: nat := 4
  const HDRLEN: nat := NLMSG_HDRLEN + GENL_HDRLEN

  const NLMSG_NOOP: nat := 1
  const NLMSG_ERROR: nat := 2
  const NLMSG_DONE: nat := 3
  const NLMSG_OVERRUN: nat := 4
  const NLMSG_MIN_TYPE: nat := 0x10

  const NLM_F_REQUEST: nat := 1
  const NLM_F_MULTI: nat := 2
  const NLM_F_ACK: nat := 4
  const NLM_F_DUMP: nat := 0x300

  datatype Header = Header(messageType: nat, flags: nat, sequence: nat, pid: nat, command: nat)

  predicate FitsHeader(h: Header) {
    h.messageType < U16_SIZE && h.flags < U16_SIZE && h.sequence < U32_SIZE && h.pid < U32_SIZE && h.command < 256
  }

  function EncodeHeader(h: Header): (b: Buffer)
    ensures |b| == HDRLEN - 4
  {
    Put16(h.messageType) + Put16(h.flags) + Put32(h.sequence) + Put32(h.pid) + [(h.command % 256) as u8, 1, 0, 0]
  }

  function EncodePacket(h: Header, body: Buffer): (b: Buffer)
    ensures |b| == HDRLEN + |body| && b[HDRLEN..] == body
  {
    Put32(HDRLEN + |body|) + EncodeHeader(h) + body
  }

  // ---- header fields ----

  function MessageLen(d: Buffer): nat
    requires |d| >= NLMSG_HDRLEN
  {
    U32At(d, 0)
  }

  function MessageType(d: Buffer): nat
    requires |d| >= NLMSG_HDRLEN
  {
    U16At(d, 4)
  }

  function Flags(d: Buffer): nat
    requires |d| >= NLMSG_HDRLEN
  {
    U16At(d, 6)
  }

  function Sequence(d: Buffer): nat
    requires |d| >= NLMSG_HDRLEN
  {
    U32At(d, 8)
  }

  function Command(d: Buffer): nat
    requires |d| >= HDRLEN
  {
    d[NLMSG_HDRLEN] as int
  }

  predicate IsMulti(d: Buffer)
    requires |d| >= NLMSG_HDRLEN
  {
    BitAnd(Flags(d), NLM_F_MULTI) != 0
  }

  predicate IsDump(d: Buffer)
    requires |d| >= NLMSG_HDRLEN
  {
    BitAnd(Flags(d), NLM_F_DUMP) != 0
  }

  /** The sign-extended error code of an NLMSG_ERROR message, negated. */
  function ErrorCode(d: Buffer): int
    requires |d| >= HDRLEN
  {
    var v: int := U32At(d, NLMSG_HDRLEN);
    if v < 0x8000_0000 then -v else U32_SIZE - v
  }

  predicate IsValidPacket(d: Buffer) {
    && |d| >= NLMSG_HDRLEN
    && (MessageType(d) >= NLMSG_MIN_TYPE ==> |d| >= HDRLEN && MessageLen(d) >= HDRLEN)
    && (MessageType(d) == NLMSG_ERROR ==> |d| >= NLMSG_HDRLEN + 4 && MessageLen(d) >= NLMSG_HDRLEN + 4)
    && NLMSG_HDRLEN <= MessageLen(d) <= |d|
  }

  lemma {:induction false} HeaderReads(h: Header, body: Buffer)
    requires FitsHeader(h)
    ensures var d := EncodePacket(h, body);
            MessageType(d) == h.messageType && Flags(d) == h.flags && Command(d) == h.command
  {
    var d := EncodePacket(h, body);
    assert d[4] == Put16(h.messageType)[0] && d[5] == Put16(h.messageType)[1];
    assert d[6] == Put16(h.flags)[0] && d[7] == Put16(h.flags)[1];
    assert d[16] == (h.command % 256) as u8;
  }

  lemma {:induction false} LengthReads(h: Header, body: Buffer)
    ensures MessageLen(EncodePacket(h, body)) == (HDRLEN + |body|) % U32_SIZE
  {
    var d := EncodePacket(h, body);
    assert d == [] + Put32(HDRLEN + |body|) + (EncodeHeader(h) + body);
    Put32Reads([], HDRLEN + |body|, EncodeHeader(h) + body);
  }

  lemma {:induction false} SequenceReads(h: Header, body: Buffer)
    requires FitsHeader(h)
    ensures Sequence(EncodePacket(h, body)) == h.sequence
  {
    var d := EncodePacket(h, body);
    var pre := Put32(HDRLEN + |body|) + Put16(h.messageType) + Put16(h.flags);
    var post := Put32(h.pid) + [(h.command % 256) as u8, 1, 0, 0] + body;
    assert d == pre + Put32(h.sequence) + post;
    Put32Reads(pre, h.sequence, post);
  }

  lemma {:induction false} EncodedPacketIsValid(h: Header, body: Buffer)
    requires FitsHeader(h) && HDRLEN + |body| < U32_SIZE
    ensures var d := EncodePacket(h, body);
            && IsValidPacket(d) && MessageLen(d) == |d|
            && MessageType(d) == h.messageType && Flags(d) == h.flags
            && Sequence(d) == h.sequence && Command(d) == h.command
  {
    HeaderReads(h, body);
    LengthReads(h, body);
    SequenceReads(h, body);
  }

  /** A packet that fits reads back its header and attributes, and its length field is its size. */
  lemma {:induction false} PacketRoundTrip(h: Header, attrs: seq<Attr>)
    requires FitsHeader(h) && AllFit(attrs) && HDRLEN + |EncodeAll(attrs)| < U32_SIZE
    ensures var d := EncodePacket(h, EncodeAll(attrs));
            && IsValidPacket(d) && MessageLen(d) == |d|
            && MessageType(d) == h.messageType && Flags(d) == h.flags
            && Sequence(d) == h.sequence && Command(d) == h.command
            && WellFormed(d[HDRLEN..])
            && Slices(d[HDRLEN..]) == Encodings(attrs)
  {
    EncodedPacketIsValid(h, EncodeAll(attrs));
    EncodedIsWellFormed(attrs);
    SlicesOfEncoded(attrs);
  }

  /** A packet after appending bytes and growing its length field by their number. */
  function Extended(d: Buffer, more: Buffer): Buffer
    requires |d| >= NLMSG_HDRLEN
  {
    Put32(MessageLen(d) + |more|) + d[4..] + more
  }

  /** Appending bytes to an encoded packet and growing its length field encodes the longer packet. */
  lemma {:induction false} AppendToPacket(h: Header, body: Buffer, more: Buffer)
    ensures Extended(EncodePacket(h, body), more) == EncodePacket(h, body + more)
  {
    var before := EncodePacket(h, body);
    assert before[4..] == EncodeHeader(h) + body;
    assert Put32(MessageLen(before) + |more|) == Put32(HDRLEN + |body| + |more|) by {
      LengthReads(h, body);
      Put32Wraps(HDRLEN + |body|, |more|);
    }
    var length := Put32(HDRLEN + |body + more|);
    Regroup(length, EncodeHeader(h) + body, more);
    Regroup(EncodeHeader(h), body, more);
    Regroup(length, EncodeHeader(h), body + more);
  }

  /** The fields of both headers, one after the other. */
  function Layout(length: Buffer, messageType: Buffer, flags: Buffer, sequence: Buffer, pid: Buffer, rest: Buffer): Buffer
    requires |length| == |sequence| == |pid| == 4 && |messageType| == |flags| == 2
  {
    length + messageType + flags + sequence + pid + rest
  }

  /** A store through a pointer to a field. */
  function Store(d: Buffer, at: nat, field: Buffer): Buffer
    requires at + |field| <= |d|
  {
    d[..at] + field + d[at + |field|..]
  }

  lemma {:induction false} StoreField(before: Buffer, old_: Buffer, field: Buffer, after: Buffer)
    requires |old_| == |field|
    ensures Store(before + old_ + after, |before|, field) == before + field + after
  {
  }

  lemma {:induction false} StoreLength(l: Buffer, t: Buffer, f: Buffer, s: Buffer, p: Buffer, rest: Buffer, field: Buffer)
    requires |l| == |s| == |p| == |field| == 4 && |t| == |f| == 2
    ensures Store(Layout(l, t, f, s, p, rest), 0, field) == Layout(field, t, f, s, p, rest)
  {
    StoreField([], l, field, t + f + s + p + rest);
    assert Layout(l, t, f, s, p, rest) == [] + l + (t + f + s + p + rest);
    assert Layout(field, t, f, s, p, rest) == [] + field + (t + f + s + p + rest);
  }

  lemma {:induction false} StoreType(l: Buffer, t: Buffer, f: Buffer, s: Buffer, p: Buffer, rest: Buffer, field: Buffer)
    requires |l| == |s| == |p| == 4 && |t| == |f| == |field| == 2
    ensures Store(Layout(l, t, f, s, p, rest), 4, field) == Layout(l, field, f, s, p, rest)
  {
    StoreField(l, t, field, f + s + p + rest);
    assert Layout(l, t, f, s, p, rest) == l + t + (f + s + p + rest);
    assert Layout(l, field, f, s, p, rest) == l + field + (f + s + p + rest);
  }

  lemma {:induction false} StoreFlags(l: Buffer, t: Buffer, f: Buffer, s: Buffer, p: Buffer, rest: Buffer, field: Buffer)
    requires |l| == |s| == |p| == 4 && |t| == |f| == |field| == 2
    ensures Store(Layout(l, t, f, s, p, rest), 6, field) == Layout(l, t, field, s, p, rest)
  {
    StoreField(l + t, f, field, s + p + rest);
    assert Layout(l, t, f, s, p, rest) == l + t + f + (s + p + rest);
    assert Layout(l, t, field, s, p, rest) == l + t + field + (s + p + rest);
  }

  lemma {:induction false} StoreSequence(l: Buffer, t: Buffer, f: Buffer, s: Buffer, p: Buffer, rest: Buffer, field: Buffer)
    requires |l| == |s| == |p| == |field| == 4 && |t| == |f| == 2
    ensures Store(Layout(l, t, f, s, p, rest), 8, field) == Layout(l, t, f, field, p, rest)
  {
    StoreField(l + t + f, s, field, p + rest);
    assert Layout(l, t, f, s, p, rest) == l + t + f + s + (p + rest);
    assert Layout(l, t, f, field, p, rest) == l + t + f + field + (p + rest);
  }

  lemma {:induction false} StorePid(l: Buffer, t: Buffer, f: Buffer, s: Buffer, p: Buffer, rest: Buffer, field: Buffer)
    requires |l| == |s| == |p| == |field| == 4 && |t| == |f| == 2
    ensures Store(Layout(l, t, f, s, p, rest), 12, field) == Layout(l, t, f, s, field, rest)
  {
    StoreField(l + t + f + s, p, field, rest);
  }

  /** A header stored field by field into zeros, as the constructor stores it. */
  lemma {:induction false} StoredFields(messageType: nat, flags: nat, sequence: nat, pid: nat)
    ensures var d := Store(Zeros(HDRLEN), 0, Put32(HDRLEN));
            |d| == HDRLEN &&
            var d := Store(d, 6, Put16(flags));
            |d| == HDRLEN &&
            var d := Store(d, 4, Put16(messageType));
            |d| == HDRLEN &&
            var d := Store(d, 8, Put32(sequence));
            |d| == HDRLEN &&
            Store(d, 12, Put32(pid)) == Layout(Put32(HDRLEN), Put16(messageType), Put16(flags), Put32(sequence), Put32(pid), Zeros(4))
  {
    var two, four := Zeros(2), Zeros(4);
    assert Zeros(HDRLEN) == Layout(four, two, two, four, four, four);
    StoreLength(four, two, two, four, four, four, Put32(HDRLEN));
    StoreFlags(Put32(HDRLEN), two, two, four, four, four, Put16(flags));
    StoreType(Put32(HDRLEN), two, Put16(flags), four, four, four, Put16(messageType));
    StoreSequence(Put32(HDRLEN), Put16(messageType), Put16(flags), four, four, four, Put32(sequence));
    StorePid(Put32(HDRLEN), Put16(messageType), Put16(flags), Put32(sequence), four, four, Put32(pid));
  }

  lemma {:induction false} SetVersionAndCommand(netlink: Buffer, command: u8)
    requires |netlink| == 16
    ensures var versioned := (netlink + Zeros(4))[..17] + [1] + (netlink + Zeros(4))[18..];
            versioned[..16] + [command] + versioned[17..] == netlink + [command, 1, 0, 0]
  {
    assert Zeros(4) == [0, 0, 0, 0];
  }

  lemma {:induction false} EmptyPacket(h: Header)
    ensures EncodePacket(h, []) ==
            Put32(HDRLEN) + Put16(h.messageType) + Put16(h.flags) + Put32(h.sequence) + Put32(h.pid)
            + [(h.command % 256) as u8, 1, 0, 0]
  {
  }

  /** Two packets that differ at most in their flags. */
  predicate OnlyFlagsChanged(before: Buffer, after: Buffer) {
    |before| == |after| && |before| >= NLMSG_HDRLEN && before[..6] == after[..6] && before[8..] == after[8..]
  }

  lemma {:induction false} FlagsStored(d: Buffer, flags: nat)
    requires |d| >= NLMSG_HDRLEN && flags < U16_SIZE
    ensures var after := d[..6] + Put16(flags) + d[8..];
            && OnlyFlagsChanged(d, after) && Flags(after) == flags
            && MessageLen(after) == MessageLen(d) && MessageType(after) == MessageType(d)
            && Sequence(after) == Sequence(d) && after[NLMSG_HDRLEN..] == d[NLMSG_HDRLEN..]
  {
    var after := d[..6] + Put16(flags) + d[8..];
    assert after[6] == Put16(flags)[0] && after[7] == Put16(flags)[1];
    assert after[0..4] == d[0..4] && after[8..12] == d[8..12];
    assert after[4] == d[4] && after[5] == d[5];
  }

  /** A packet is determined by its flags and by the rest of its bytes. */
  lemma {:induction false} FlagsDetermine(before: Buffer, after: Buffer)
    requires OnlyFlagsChanged(before, after)
    ensures after == before[..6] + Put16(Flags(after)) + before[8..]
  {
    Put16OfU16At(after, 6);
    assert after == after[..6] + after[6..8] + after[8..];
  }

  class NL80211Packet {
    var data: Buffer

    constructor FromBuffer(buffer: Buffer)
      ensures data == buffer
    {
      data := buffer;
    }

    constructor (messageType: nat, command: nat, sequence: nat, pid: nat)
      ensures data == EncodePacket(Header(messageType, NLM_F_REQUEST, sequence, pid, command), [])
    {
      data := Zeros(HDRLEN);
      new;
      StoredFields(messageType, NLM_F_REQUEST, sequence, pid);
      data := Store(data, 0, Put32(|data|));
      data := Store(data, 6, Put16(NLM_F_REQUEST));
      data := Store(data, 4, Put16(messageType));
      data := Store(data, 8, Put32(sequence));
      data := Store(data, 12, Put32(pid));
      SetVersionAndCommand(data[..NLMSG_HDRLEN], (command % 256) as u8);
      data := data[..17] + [1] + data[18..];
      data := data[..16] + [(command % 256) as u8] + data[17..];
      EmptyPacket(Header(messageType, NLM_F_REQUEST, sequence, pid, command));
    }

    /** Sets the bits of a flag, keeps the bits that were set, and changes nothing else. */
    method AddFlag(flag: nat)
      requires |data| >= NLMSG_HDRLEN && flag < U16_SIZE
      modifies this
      ensures OnlyFlagsChanged(old(data), data)
      ensures Flags(data) == BitOr(Flags(old(data)), flag)
      ensures BitAnd(Flags(data), flag) == flag && BitAnd(Flags(data), Flags(old(data))) == Flags(old(data))
      ensures MessageLen(data) == MessageLen(old(data)) && MessageType(data) == MessageType(old(data))
      ensures Sequence(data) == Sequence(old(data)) && data[NLMSG_HDRLEN..] == old(data)[NLMSG_HDRLEN..]
    {
      data := data[..6] + Put16(BitOr(Flags(data), flag)) + data[8..];
      FlagsStored(old(data), BitOr(Flags(old(data)), flag)) by {
        Put16OfU16At(old(data), 6);
        OrOf16Bits(Flags(old(data)), flag);
      }
      OrSetsBits(Flags(old(data)), flag);
    }

    method AddAttribute(attribute: NL80211Attr)
      requires |data| >= NLMSG_HDRLEN
      modifies this
      ensures data == Extended(old(data), attribute.data)
    {
      data := data + attribute.data;
      assert data[0..4] == old(data)[0..4];
      data := Put32(MessageLen(data) + |attribute.data|) + data[4..];
    }

    method AddFlagAttribute(attributeId: nat)
      requires |data| >= NLMSG_HDRLEN
      modifies this
      ensures data == Extended(old(data), Encode(Attr(attributeId, [])))
    {
      data := data + Zeros(NLA_HDRLEN);
      var flag := |data| - NLA_HDRLEN;
      data := data[..flag + 2] + Put16(attributeId) + data[flag + 4..];
      data := data[..flag] + Put16(NLA_HDRLEN) + data[flag + 2..];
      StoredFlag(old(data), attributeId);
      assert data[0..4] == old(data)[0..4];
      data := Put32(MessageLen(data) + NLA_HDRLEN) + data[4..];
    }

    /** Also true of a match of length zero, which no other reader accepts. */
    method HasAttribute(id: nat) returns (has: bool)
      requires |data| >= HDRLEN && SearchEnds(data[HDRLEN..], id)
      ensures has == Found(data[HDRLEN..], id).Some?
      ensures NonzeroHeaders(data[HDRLEN..]) ==> has == Find(data[HDRLEN..], id).Some?
    {
      var start, end;
      has, start, end := NL80211Attr.GetAttributeImpl(data[HDRLEN..], id);
      FoundIsFirst(data[HDRLEN..], id);
    }

    /** Copies the first attribute with this id into `attribute`; one nested deeper is never taken. */
    method GetAttribute(id: nat, attribute: NL80211Attr) returns (ok: bool)
      requires |data| >= HDRLEN && SearchEnds(data[HDRLEN..], id)
      modifies attribute
      ensures ok == Find(data[HDRLEN..], id).Some?
      ensures ok ==> Find(data[HDRLEN..], id) == Some(attribute.data)
      ensures !ok ==> attribute.data == if Found(data[HDRLEN..], id).Some? then [] else old(attribute.data)
    {
      var body := data[HDRLEN..];
      var found, start, end := NL80211Attr.GetAttributeImpl(body, id);
      FoundIsFirst(body, id);
      if !found {
        return false;
      }
      attribute.data := body[start..end];
      if !IsValid(attribute.data) {
        return false;
      }
      return true;
    }

    method GetUIntValue(id: nat, width: nat, initial: nat) returns (ok: bool, value: nat)
      requires |data| >= HDRLEN && SearchEnds(data[HDRLEN..], id)
      ensures ok == FindUInt(data[HDRLEN..], id, width).Some?
      ensures value == if ok then FindUInt(data[HDRLEN..], id, width).value else initial
    {
      var attribute := new NL80211Attr.FromBuffer([]);
      var found := GetAttribute(id, attribute);
      if !found || !IsValidIntegral(attribute.data, width) {
        return false, initial;
      }
      return true, UIntOf(attribute.data, width);
    }

    method GetBytesValue(id: nat, initial: Buffer) returns (ok: bool, value: Buffer)
      requires |data| >= HDRLEN && SearchEnds(data[HDRLEN..], id) && BytesReadable(data[HDRLEN..], id)
      ensures ok == FindBytes(data[HDRLEN..], id).Some?
      ensures value == if ok then FindBytes(data[HDRLEN..], id).value else initial
    {
      var attribute := new NL80211Attr.FromBuffer([]);
      var found := GetAttribute(id, attribute);
      if !found {
        return false, initial;
      }
      return true, ValueOf(attribute.data);
    }

    /**
     Appends a copy of every attribute, with fresh zero padding, to `before`. On failure the
     attributes up to the first broken one are present.
     */
    method GetAllAttributes(before: seq<NL80211Attr>) returns (ok: bool, attributes: seq<NL80211Attr>)
      requires |data| >= HDRLEN && NoShortHeaders(data[HDRLEN..])
      ensures ok == WellFormed(data[HDRLEN..])
      ensures AllCopied(before, attributes, data[HDRLEN..])
      ensures forall i :: |before| <= i < |attributes| ==> fresh(attributes[i])
    {
      var body := data[HDRLEN..];
      var ptr := 0;
      var added: seq<NL80211Attr> := [];
      while ptr + NLA_HDRLEN <= |body|
        invariant WalkedCopies(body, ptr, added)
        invariant forall i :: 0 <= i < |added| ==> fresh(added[i])
      {
        var next := ptr + NlaAlign(U16At(body, ptr));
        if next > |body| || U16At(body, ptr) == 0 {
          WalkedCopiesEnd(body, ptr, before, added);
          return false, before + added;
        }
        var attr := CopyAttribute(body, ptr, |added|);
        WalkedCopiesStep(body, ptr, added, attr);
        added := added + [attr];
        ptr := next;
      }
      WalkedCopiesEnd(body, ptr, before, added);
      return true, before + added;
    }
  }

  /** A copy of the attribute at an offset, with fresh padding. */
  method CopyAttribute(b: Buffer, ptr: nat, ghost k: nat) returns (attr: NL80211Attr)
    requires NoShortHeaders(b) && WalkedTo(b, ptr, k) && ptr + NLA_HDRLEN <= |b|
    requires U16At(b, ptr) != 0 && ptr + NlaAlign(U16At(b, ptr)) <= |b|
    ensures k < |AttrList(b)| && fresh(attr) && attr.data == Encode(AttrList(b)[k])
  {
    NextAttr(b, ptr, k);
    attr := new NL80211Attr.Raw(U16At(b, ptr + 2), b[ptr + NLA_HDRLEN..ptr + U16At(b, ptr)]);
  }

  /** The attributes of a buffer up to the first broken one. */
  function AttrList(b: Buffer): (attrs: seq<Attr>)
    requires NoShortHeaders(b)
    ensures |attrs| == |Slices(b)|
    ensures forall i :: 0 <= i < |attrs| ==> HasPayload(Slices(b)[i]) && attrs[i] == Decode(Slices(b)[i])
  {
    SlicesAreValid(b);
    Decodes(Slices(b))
  }

  /** `attributes` are `before` and then a copy of every attribute up to the first broken one. */
  ghost predicate AllCopied(before: seq<NL80211Attr>, attributes: seq<NL80211Attr>, b: Buffer)
    requires NoShortHeaders(b)
    reads attributes
  {
    && before <= attributes && |attributes| == |before| + |AttrList(b)|
    && forall i :: |before| <= i < |attributes| ==> attributes[i].data == Encode(AttrList(b)[i - |before|])
  }

  /** Encodings of the first of these attributes, in order. */
  ghost predicate Copied(added: seq<NL80211Attr>, attrs: seq<Attr>)
    reads added
  {
    |added| <= |attrs| && forall i :: 0 <= i < |added| ==> added[i].data == Encode(attrs[i])
  }

  /** A loop stands at offset `ptr`, with the attributes before it copied. */
  ghost predicate WalkedCopies(b: Buffer, ptr: nat, added: seq<NL80211Attr>)
    requires NoShortHeaders(b)
    reads added
  {
    WalkedTo(b, ptr, |added|) && Copied(added, AttrList(b))
  }

  /** The attribute at the offset, read in place. */
  lemma {:induction false} NextAttr(b: Buffer, ptr: nat, k: nat)
    requires NoShortHeaders(b) && WalkedTo(b, ptr, k) && ptr + NLA_HDRLEN <= |b|
    requires U16At(b, ptr) != 0 && ptr + NlaAlign(U16At(b, ptr)) <= |b|
    ensures k < |AttrList(b)| && NLA_HDRLEN <= U16At(b, ptr)
    ensures AttrList(b)[k] == Attr(U16At(b, ptr + 2), b[ptr + NLA_HDRLEN..ptr + U16At(b, ptr)])
  {
    var next := ptr + NlaAlign(U16At(b, ptr));
    WalkStep(b, ptr, k);
    SliceHasPayload(b, k);
    DecodeInPlace(b, ptr, next);
  }

  lemma {:induction false} WalkedCopiesStep(b: Buffer, ptr: nat, added: seq<NL80211Attr>, attr: NL80211Attr)
    requires NoShortHeaders(b) && WalkedCopies(b, ptr, added) && ptr + NLA_HDRLEN <= |b|
    requires U16At(b, ptr) != 0 && ptr + NlaAlign(U16At(b, ptr)) <= |b|
    requires |added| < |AttrList(b)| && attr.data == Encode(AttrList(b)[|added|])
    ensures WalkedCopies(b, ptr + NlaAlign(U16At(b, ptr)), added + [attr])
  {
    WalkStep(b, ptr, |added|);
  }

  /** Where the loop ends, all attributes are copied, and the list is well formed exactly if the buffer ends as well. */
  lemma {:induction false} WalkedCopiesEnd(b: Buffer, ptr: nat, before: seq<NL80211Attr>, added: seq<NL80211Attr>)
    requires NoShortHeaders(b) && WalkedCopies(b, ptr, added)
    requires ptr + NLA_HDRLEN > |b| || U16At(b, ptr) == 0 || ptr + NlaAlign(U16At(b, ptr)) > |b|
    ensures AllCopied(before, before + added, b)
    ensures WellFormed(b) <==> ptr + NLA_HDRLEN > |b|
  {
    if ptr + NLA_HDRLEN > |b| {
      WalkEnd(b, ptr, |added|);
    } else {
      WalkBroken(b, ptr, |added|);
      assert LenOf(b[ptr..]) == U16At(b, ptr);
    }
  }

  lemma {:induction false} DecodeInPlace(b: Buffer, ptr: nat, next: nat)
    requires ptr + NLA_HDRLEN <= next <= |b| && HasPayload(b[ptr..next])
    ensures NLA_HDRLEN <= U16At(b, ptr) <= next - ptr
    ensures Decode(b[ptr..next]) == Attr(U16At(b, ptr + 2), b[ptr + NLA_HDRLEN..ptr + U16At(b, ptr)])
  {
    assert LenOf(b[ptr..next]) == U16At(b, ptr) && IdOf(b[ptr..next]) == U16At(b, ptr + 2);
  }

  lemma {:induction false} AttrListOfEncoded(attrs: seq<Attr>)
    requires AllFit(attrs)
    ensures NoShortHeaders(EncodeAll(attrs)) && WellFormed(EncodeAll(attrs)) && NonzeroHeaders(EncodeAll(attrs))
    ensures AttrList(EncodeAll(attrs)) == attrs
  {
    EncodedIsWellFormed(attrs);
    EncodeAllRoundTrip(attrs);
  }
}
