/**
 The attribute objects of net/nl80211_attribute.{h,cpp}. One class stands for the base class and its
 integral, byte-vector, string and nested forms, which differ only in how they read the same bytes.
 */
module Nl80211Attribute {
  import opened Bytes
  import opened AttributeFormat

  class NL80211Attr {
    var data: Buffer

    /** A raw payload, as the base class and the byte-vector form build it. */
    constructor Raw(id: nat, rawBuffer: Buffer)
      ensures data == Encode(Attr(id, rawBuffer))
    {
      data := [];
      new;
      InitHeaderAndResize(id, |rawBuffer|);
      data := data[..NLA_HDRLEN] + rawBuffer + data[NLA_HDRLEN + |rawBuffer|..];
    }

    /** An unsigned integer of `width` bytes. */
    constructor Integral(id: nat, value: nat, width: nat)
      ensures data == Encode(Attr(id, LittleEndian(value, width)))
    {
      data := [];
      new;
      InitHeaderAndResize(id, width);
      data := data[..NLA_HDRLEN] + LittleEndian(value, width) + data[NLA_HDRLEN + width..];
    }

    /** A string, stored with one terminating zero. */
    constructor String(id: nat, str: Buffer)
      ensures data == Encode(Attr(id, str + [0]))
    {
      data := [];
      new;
      InitHeaderAndResize(id, |str| + 1);
      data := data[..NLA_HDRLEN] + str + data[NLA_HDRLEN + |str|..];
      assert data == Encode(Attr(id, str + [0]));
    }

    constructor Nested(id: nat)
      ensures data == Encode(Attr(id, []))
    {
      data := [];
      new;
      InitHeaderAndResize(id, 0);
    }

    /** An existing buffer, taken as it is. */
    constructor FromBuffer(buffer: Buffer)
      ensures data == buffer
    {
      data := buffer;
    }

    method InitHeaderAndResize(attributeId: nat, payloadLength: nat)
      requires data == []
      modifies this
      ensures data == Encode(Attr(attributeId, Zeros(payloadLength)))
    {
      data := Zeros(NLA_HDRLEN + NlaAlign(payloadLength));
      data := data[..2] + Put16(attributeId) + data[4..];
      data := Put16(NLA_HDRLEN + payloadLength) + data[2..];
      StoredHeader(attributeId, payloadLength);
    }

    function GetAttributeId(): nat
      reads this
      requires |data| >= NLA_HDRLEN
    {
      IdOf(data)
    }

    /**
     Finds the first attribute with an id in a buffer of attributes. A header of length zero before the first
     match would make the loop spin, so callers must not pass one.
     */
    static method GetAttributeImpl(buf: Buffer, attrId: nat) returns (found: bool, start: nat, end: nat)
      requires SearchEnds(buf, attrId)
      ensures found == Found(buf, attrId).Some?
      ensures found ==> start <= end <= |buf| && Found(buf, attrId) == Some(buf[start..end])
      ensures Find(buf, attrId) == if found && start < end then Some(buf[start..end]) else None
    {
      FoundIsFirst(buf, attrId);
      SearchStarts(buf, attrId);
      var ptr := 0;
      while ptr + NLA_HDRLEN <= |buf|
        invariant Searching(buf, ptr, attrId)
        decreases |buf| - ptr
      {
        var next := ptr + NlaAlign(U16At(buf, ptr));
        if U16At(buf, ptr + 2) == attrId {
          SearchHits(buf, ptr, attrId);
          if next > |buf| {
            return false, 0, 0;
          }
          return true, ptr, next;
        }
        SearchGoesOn(buf, ptr, attrId);
        ptr := next;
      }
      SearchFails(buf, ptr, attrId);
      return false, 0, 0;
    }

    /**
     Appends the payload of another attribute with the same id. The result does not depend on the
     padding of either attribute.
     */
    method Merge(other: NL80211Attr) returns (ok: bool)
      requires other != this
      requires HasPayload(data)
      requires IsValid(other.data) ==> HasPayload(other.data)
      modifies this
      ensures ok == (IsValid(other.data) && IdOf(old(data)) == IdOf(other.data))
      ensures ok ==> data == Encode(Attr(IdOf(old(data)), ValueOf(old(data)) + ValueOf(other.data)))
      ensures !ok ==> data == old(data)
    {
      if !IsValid(other.data) {
        return false;
      }
      if IdOf(data) != IdOf(other.data) {
        return false;
      }
      var ourLen := LenOf(data);
      var otherLen := LenOf(other.data);
      var totalLen := ourLen + otherLen - NLA_HDRLEN;
      ghost var payload := ValueOf(data) + ValueOf(other.data);
      data := Put16(totalLen) + data[2..];
      data := data[..ourLen];
      data := data + other.data[NLA_HDRLEN..otherLen];
      assert data == Put16(totalLen) + old(data)[2..4] + payload;
      data := data + Zeros(NlaAlign(totalLen) - |data|);
      IdBytes(old(data));
      MergedLayout(IdOf(old(data)), payload);
      return true;
    }

    // ---- the nested form ----

    /** Appends an attribute after the current children and grows the recorded length by its size. */
    method AddAttribute(attribute: NL80211Attr)
      requires attribute != this && |data| >= NLA_HDRLEN
      modifies this
      ensures data == WithChild(old(data), attribute.data)
    {
      data := data + attribute.data;
      data := Put16(LenOf(data) + |attribute.data|) + data[2..];
    }

    method AddFlagAttribute(attributeId: nat)
      requires |data| >= NLA_HDRLEN
      modifies this
      ensures data == WithChild(old(data), Encode(Attr(attributeId, [])))
    {
      data := data + Zeros(NLA_HDRLEN);
      var flag := |data| - NLA_HDRLEN;
      data := data[..flag + 2] + Put16(attributeId) + data[flag + 4..];
      data := data[..flag] + Put16(NLA_HDRLEN) + data[flag + 2..];
      StoredFlag(old(data), attributeId);
      data := Put16(LenOf(data) + NLA_HDRLEN) + data[2..];
    }

    /** Also true of a match of length zero, which no other reader accepts. */
    method HasAttribute(id: nat) returns (has: bool)
      requires |data| >= NLA_HDRLEN && SearchEnds(data[NLA_HDRLEN..], id)
      ensures has == Found(data[NLA_HDRLEN..], id).Some?
      ensures NonzeroHeaders(data[NLA_HDRLEN..]) ==> has == Find(data[NLA_HDRLEN..], id).Some?
    {
      var start, end;
      has, start, end := GetAttributeImpl(data[NLA_HDRLEN..], id);
      FoundIsFirst(data[NLA_HDRLEN..], id);
    }

    /** Copies the first attribute with this id into `attribute`; one nested deeper is never taken. */
    method GetAttribute(id: nat, attribute: NL80211Attr) returns (ok: bool)
      requires |data| >= NLA_HDRLEN && SearchEnds(data[NLA_HDRLEN..], id)
      requires attribute != this
      modifies attribute
      ensures ok == Find(data[NLA_HDRLEN..], id).Some?
      ensures ok ==> Find(data[NLA_HDRLEN..], id) == Some(attribute.data)
      ensures !ok ==> attribute.data == if Found(data[NLA_HDRLEN..], id).Some? then [] else old(attribute.data)
    {
      var body := data[NLA_HDRLEN..];
      var found, start, end := GetAttributeImpl(body, id);
      FoundIsFirst(body, id);
      if !found {
        return false;
      }
      attribute.data := body[start..end];
      if !IsValid(attribute.data) {
        return false;
      }
      return true;
    }

    method GetUIntValue(id: nat, width: nat, initial: nat) returns (ok: bool, value: nat)
      requires |data| >= NLA_HDRLEN && SearchEnds(data[NLA_HDRLEN..], id)
      ensures ok == FindUInt(data[NLA_HDRLEN..], id, width).Some?
      ensures value == if ok then FindUInt(data[NLA_HDRLEN..], id, width).value else initial
    {
      var attribute := new NL80211Attr.FromBuffer([]);
      var found := GetAttribute(id, attribute);
      if !found || !IsValidIntegral(attribute.data, width) {
        return false, initial;
      }
      return true, Value(attribute.data[NLA_HDRLEN..NLA_HDRLEN + width]);
    }

    /** All children as attribute objects, if the list is well formed to its end. */
    method GetListOfNestedAttributes(initial: seq<NL80211Attr>) returns (ok: bool, value: seq<NL80211Attr>)
      requires |data| >= NLA_HDRLEN
      ensures ok == WellFormed(data[NLA_HDRLEN..])
      ensures !ok ==> value == initial
      ensures ok ==> |value| == |Slices(data[NLA_HDRLEN..])|
      ensures ok ==> forall i :: 0 <= i < |value| ==> fresh(value[i]) && value[i].data == Slices(data[NLA_HDRLEN..])[i]
    {
      var body := data[NLA_HDRLEN..];
      var ptr := 0;
      value := [];
      while ptr + NLA_HDRLEN <= |body|
        invariant WalkedSlices(body, ptr, value)
        invariant forall i :: 0 <= i < |value| ==> fresh(value[i])
      {
        var next := ptr + NlaAlign(U16At(body, ptr));
        if next > |body| {
          WalkBroken(body, ptr, |value|);
          return false, initial;
        }
        var attr := new NL80211Attr.FromBuffer(body[ptr..next]);
        SliceIsValid(body, ptr, next);
        if !IsValid(attr.data) {
          WalkBroken(body, ptr, |value|);
          return false, initial;
        }
        WalkedSlicesStep(body, ptr, value, attr);
        value := value + [attr];
        ptr := next;
      }
      WalkEnd(body, ptr, |value|);
      return true, value;
    }

    /** All children as byte strings. */
    method GetListOfBytesValues(initial: seq<Buffer>) returns (ok: bool, value: seq<Buffer>)
      requires |data| >= NLA_HDRLEN && NoShortHeaders(data[NLA_HDRLEN..])
      ensures ok == WellFormed(data[NLA_HDRLEN..])
      ensures value == if ok then BytesList(data[NLA_HDRLEN..]) else initial
    {
      var body := data[NLA_HDRLEN..];
      var ptr := 0;
      var list: seq<Buffer> := [];
      while ptr + NLA_HDRLEN <= |body|
        invariant WalkedBytes(body, ptr, list)
      {
        var next := ptr + NlaAlign(U16At(body, ptr));
        if next > |body| {
          WalkBroken(body, ptr, |list|);
          return false, initial;
        }
        var attribute := body[ptr..next];
        SliceIsValid(body, ptr, next);
        if !IsValid(attribute) {
          WalkBroken(body, ptr, |list|);
          return false, initial;
        }
        WalkedBytesStep(body, ptr, list);
        list := list + [ValueOf(attribute)];
        ptr := next;
      }
      WalkEnd(body, ptr, |list|);
      return true, list;
    }

    /** The string value: the payload without its trailing zeros. */
    method GetStringValue() returns (str: Buffer)
      requires HasPayload(data)
      ensures str == TrimZeros(ValueOf(data))
    {
      var length: nat := LenOf(data) - NLA_HDRLEN;
      ghost var payload := ValueOf(data);
      assert payload[..length] == payload;
      while length > 0 && data[NLA_HDRLEN + length - 1] == 0
        invariant length <= |payload| && TrimZeros(payload) == TrimZeros(payload[..length])
      {
        assert payload[..length][..length - 1] == payload[..length - 1];
        length := length - 1;
      }
      assert data[NLA_HDRLEN..NLA_HDRLEN + length] == payload[..length];
      return data[NLA_HDRLEN..NLA_HDRLEN + length];
    }

    /** All children as unsigned integers; one child of another size fails the whole read. */
    method GetListOfUIntValues(width: nat, initial: seq<nat>) returns (ok: bool, value: seq<nat>)
      requires |data| >= NLA_HDRLEN
      ensures ok == IsUIntList(data[NLA_HDRLEN..], width)
      ensures value == if ok then UIntList(data[NLA_HDRLEN..], width) else initial
    {
      var body := data[NLA_HDRLEN..];
      var ptr := 0;
      var list: seq<nat> := [];
      while ptr + NLA_HDRLEN <= |body|
        invariant WalkedUInts(body, width, ptr, list)
      {
        var next := ptr + NlaAlign(U16At(body, ptr));
        if next > |body| {
          WalkBroken(body, ptr, |list|);
          return false, initial;
        }
        var attribute := body[ptr..next];
        SliceIsValid(body, ptr, next);
        if !IsValid(attribute) {
          WalkBroken(body, ptr, |list|);
          return false, initial;
        }
        if !IsValidIntegral(attribute, width) {
          WalkStep(body, ptr, |list|);
          return false, initial;
        }
        WalkedUIntsStep(body, width, ptr, list);
        list := list + [UIntOf(attribute, width)];
        ptr := next;
      }
      WalkEnd(body, ptr, |list|);
      return true, list;
    }
  }

  /** A list of integers of `width` bytes each, to the end of the buffer. */
  predicate IsUIntList(b: Buffer, width: nat) {
    WellFormed(b) && forall i :: 0 <= i < |Slices(b)| ==> IsValidIntegral(Slices(b)[i], width)
  }

  function UIntList(b: Buffer, width: nat): (values: seq<nat>)
    requires IsUIntList(b, width)
    ensures |values| == |Slices(b)|
    ensures forall i :: 0 <= i < |values| ==> values[i] == UIntOf(Slices(b)[i], width)
  {
    seq(|Slices(b)|, i requires 0 <= i < |Slices(b)| => UIntOf(Slices(b)[i], width))
  }

  /** The first attributes, as objects. */
  ghost predicate SlicesSoFar(b: Buffer, value: seq<NL80211Attr>)
    reads value
  {
    |value| <= |Slices(b)| && forall i :: 0 <= i < |value| ==> value[i].data == Slices(b)[i]
  }

  /** A loop stands at offset `ptr`, with the attributes before it as objects. */
  ghost predicate WalkedSlices(b: Buffer, ptr: nat, value: seq<NL80211Attr>)
    reads value
  {
    WalkedTo(b, ptr, |value|) && SlicesSoFar(b, value)
  }

  lemma {:induction false} WalkedSlicesStep(b: Buffer, ptr: nat, value: seq<NL80211Attr>, attr: NL80211Attr)
    requires WalkedSlices(b, ptr, value) && ptr + NLA_HDRLEN <= |b|
    requires U16At(b, ptr) != 0 && ptr + NlaAlign(U16At(b, ptr)) <= |b|
    requires attr.data == b[ptr..ptr + NlaAlign(U16At(b, ptr))]
    ensures WalkedSlices(b, ptr + NlaAlign(U16At(b, ptr)), value + [attr])
  {
    WalkStep(b, ptr, |value|);
  }

  /** What the first attributes hold, as integers. */
  ghost predicate UIntsSoFar(b: Buffer, width: nat, list: seq<nat>) {
    && |list| <= |Slices(b)|
    && forall i :: 0 <= i < |list| ==> IsValidIntegral(Slices(b)[i], width) && list[i] == UIntOf(Slices(b)[i], width)
  }

  ghost predicate WalkedUInts(b: Buffer, width: nat, ptr: nat, list: seq<nat>) {
    WalkedTo(b, ptr, |list|) && UIntsSoFar(b, width, list)
  }

  lemma {:induction false} WalkedUIntsStep(b: Buffer, width: nat, ptr: nat, list: seq<nat>)
    requires WalkedUInts(b, width, ptr, list) && ptr + NLA_HDRLEN <= |b|
    requires U16At(b, ptr) != 0 && ptr + NlaAlign(U16At(b, ptr)) <= |b|
    requires IsValidIntegral(b[ptr..ptr + NlaAlign(U16At(b, ptr))], width)
    ensures var next := ptr + NlaAlign(U16At(b, ptr)); WalkedUInts(b, width, next, list + [UIntOf(b[ptr..next], width)])
  {
    WalkStep(b, ptr, |list|);
  }

  /** What the first attributes hold, as bytes. */
  ghost predicate BytesSoFar(b: Buffer, list: seq<Buffer>) {
    && |list| <= |Slices(b)|
    && forall i :: 0 <= i < |list| ==> HasPayload(Slices(b)[i]) && list[i] == ValueOf(Slices(b)[i])
  }

  ghost predicate WalkedBytes(b: Buffer, ptr: nat, list: seq<Buffer>) {
    WalkedTo(b, ptr, |list|) && BytesSoFar(b, list)
  }

  lemma {:induction false} WalkedBytesStep(b: Buffer, ptr: nat, list: seq<Buffer>)
    requires WalkedBytes(b, ptr, list) && NoShortHeaders(b) && ptr + NLA_HDRLEN <= |b|
    requires U16At(b, ptr) != 0 && ptr + NlaAlign(U16At(b, ptr)) <= |b|
    ensures var next := ptr + NlaAlign(U16At(b, ptr));
            HasPayload(b[ptr..next]) && WalkedBytes(b, next, list + [ValueOf(b[ptr..next])])
  {
    WalkStep(b, ptr, |list|);
    SliceHasPayload(b, |list|);
  }

  function BytesList(b: Buffer): (values: seq<Buffer>)
    requires NoShortHeaders(b)
    ensures |values| == |Slices(b)|
    ensures forall i :: 0 <= i < |values| ==> HasPayload(Slices(b)[i]) && values[i] == ValueOf(Slices(b)[i])
  {
    SlicesAreValid(b);
    seq(|Slices(b)|, i requires 0 <= i < |Slices(b)| => ValueOf(Slices(b)[i]))
  }

  function TrimZeros(s: Buffer): (r: Buffer)
    ensures r <= s
  {
    if s != [] && s[|s| - 1] == 0 then TrimZeros(s[..|s| - 1]) else s
  }

  /** A string survives the round trip exactly when it does not itself end in a zero. */
  lemma {:induction false} StringRoundTrip(id: nat, str: Buffer)
    requires Fits(Attr(id, str + [0]))
    ensures HasPayload(Encode(Attr(id, str + [0])))
    ensures TrimZeros(ValueOf(Encode(Attr(id, str + [0])))) == str <==> (str == [] || str[|str| - 1] != 0)
  {
    EncodeRoundTrip(Attr(id, str + [0]));
    assert ValueOf(Encode(Attr(id, str + [0]))) == str + [0];
    assert (str + [0])[..|str|] == str;
    if str != [] && str[|str| - 1] == 0 {
      assert |TrimZeros(str)| <= |str| - 1;
    }
  }

  /** Length, id, payload and padding up to the aligned total length are the encoding. */
  lemma {:induction false} MergedLayout(id: nat, payload: Buffer)
    ensures var total := NLA_HDRLEN + |payload|;
            NlaAlign(total) >= total
            && Put16(total) + Put16(id) + payload + Zeros(NlaAlign(total) - total) == Encode(Attr(id, payload))
  {
    AlignPastHeader(|payload|);
  }

  lemma {:induction false} IdBytes(b: Buffer)
    requires |b| >= NLA_HDRLEN
    ensures Put16(IdOf(b)) == b[2..4]
  {
  }

  // ---- what merging and appending mean for attributes ----

  /** The bytes Merge leaves when both lists of bytes are valid attributes of one id. */
  function MergedBytes(ours: Buffer, others: Buffer): Buffer
    requires HasPayload(ours) && HasPayload(others)
  {
    Encode(Attr(IdOf(ours), ValueOf(ours) + ValueOf(others)))
  }

  /** A merge is a valid attribute exactly when the joint length fits in 16 bits. */
  lemma {:induction false} MergeIsValid(ours: Buffer, others: Buffer)
    requires HasPayload(ours) && HasPayload(others) && IdOf(ours) == IdOf(others)
    ensures IsValid(MergedBytes(ours, others)) <==> LenOf(ours) + LenOf(others) - NLA_HDRLEN < U16_SIZE
    ensures LenOf(ours) + LenOf(others) - NLA_HDRLEN < U16_SIZE ==>
              && HasPayload(MergedBytes(ours, others))
              && Decode(MergedBytes(ours, others)) == Attr(IdOf(ours), ValueOf(ours) + ValueOf(others))
  {
    EncodeRoundTrip(Attr(IdOf(ours), ValueOf(ours) + ValueOf(others)));
  }

  /** Merging is associative byte for byte while the joint length fits. */
  lemma {:induction false} MergeAssociative(a: Buffer, b: Buffer, c: Buffer)
    requires HasPayload(a) && HasPayload(b) && HasPayload(c)
    requires IdOf(a) == IdOf(b) == IdOf(c)
    requires NLA_HDRLEN + |ValueOf(a)| + |ValueOf(b)| + |ValueOf(c)| < U16_SIZE
    ensures HasPayload(MergedBytes(a, b)) && HasPayload(MergedBytes(b, c))
    ensures MergedBytes(MergedBytes(a, b), c) == MergedBytes(a, MergedBytes(b, c))
  {
    var u, v, w := ValueOf(a), ValueOf(b), ValueOf(c);
    assert HasPayload(MergedBytes(a, b)) && Decode(MergedBytes(a, b)) == Attr(IdOf(a), u + v) by { MergeIsValid(a, b); }
    assert HasPayload(MergedBytes(b, c)) && Decode(MergedBytes(b, c)) == Attr(IdOf(a), v + w) by { MergeIsValid(b, c); }
    Regroup(u, v, w);
  }

  lemma {:induction false} HeadOfConcat(x: Buffer, y: Buffer)
    requires |x| >= NLA_HDRLEN && !Broken(x)
    ensures var w := x + y;
            && !Broken(w) && LenOf(w) == LenOf(x)
            && w[..NlaAlign(LenOf(w))] == x[..NlaAlign(LenOf(x))] && Rest(w) == Rest(x) + y
  {
    var n := NlaAlign(LenOf(x));
    assert LenOf(x + y) == LenOf(x);
    assert (x + y)[n..] == x[n..] + y;
  }

  /** A well-formed list, cut where an attribute ends, is followed by the list after the cut. */
  lemma {:induction false} SlicesOfConcat(x: Buffer, y: Buffer)
    requires WellFormed(x) && |x| % 4 == 0
    ensures Slices(x + y) == Slices(x) + Slices(y)
    ensures WellFormed(x + y) == WellFormed(y)
    ensures NonzeroHeaders(x + y) == NonzeroHeaders(y)
    decreases |x|
  {
    if |x| < NLA_HDRLEN {
      assert |x| == 0;
      assert x + y == y;
    } else {
      HeadOfConcat(x, y);
      assert |Rest(x)| % 4 == 0 by { AlignedDifference(|x|, NlaAlign(LenOf(x))); }
      SlicesOfConcat(Rest(x), y);
      Regroup([x[..NlaAlign(LenOf(x))]], Slices(Rest(x)), Slices(y));
    }
  }

  /** Merging two nested attributes concatenates their lists of children. */
  lemma {:induction false} MergeConcatenatesChildren(ours: Buffer, others: Buffer)
    requires HasPayload(ours) && HasPayload(others) && IdOf(ours) == IdOf(others)
    requires |ValueOf(ours)| % 4 == 0 && |ValueOf(others)| % 4 == 0
    requires WellFormed(ours[NLA_HDRLEN..]) && WellFormed(others[NLA_HDRLEN..])
    ensures var children := MergedBytes(ours, others)[NLA_HDRLEN..];
            && WellFormed(children)
            && Slices(children) == Slices(ours[NLA_HDRLEN..]) + Slices(others[NLA_HDRLEN..])
  {
    var left, right := ValueOf(ours), ValueOf(others);
    assert ours[NLA_HDRLEN..] == left by { AlignedValue(ours); }
    assert others[NLA_HDRLEN..] == right by { AlignedValue(others); }
    assert MergedBytes(ours, others)[NLA_HDRLEN..] == left + right by {
      AlignedSum(|left|, |right|);
      AlignedPayload(IdOf(ours), left + right);
    }
    SlicesOfConcat(left, right);
  }

  lemma {:induction false} AlignedValue(b: Buffer)
    requires HasPayload(b) && |ValueOf(b)| % 4 == 0
    ensures b[NLA_HDRLEN..] == ValueOf(b)
  {
    AlignOfMultiple(|ValueOf(b)|);
  }

  /** A nested attribute after appending a child and growing the recorded length by its size. */
  function WithChild(b: Buffer, child: Buffer): Buffer
    requires |b| >= NLA_HDRLEN
  {
    Put16(LenOf(b) + |child|) + b[2..] + child
  }

  /** Appending a child to an encoded nested attribute encodes the longer list, wrapping or not. */
  lemma {:induction false} AppendChild(id: nat, body: Buffer, child: Buffer)
    requires |body| % 4 == 0 && |child| % 4 == 0
    ensures WithChild(Encode(Attr(id, body)), child) == Encode(Attr(id, body + child))
  {
    var before := Encode(Attr(id, body));
    assert before == Put16(NLA_HDRLEN + |body|) + Put16(id) + body by { AlignedPayload(id, body); }
    assert before[2..] == Put16(id) + body;
    assert Put16(LenOf(before) + |child|) == Put16(NLA_HDRLEN + |body| + |child|) by {
      EncodeReads(Attr(id, body));
      Put16Wraps(NLA_HDRLEN + |body|, |child|);
    }
    assert Encode(Attr(id, body + child)) == Put16(NLA_HDRLEN + |body + child|) + Put16(id) + (body + child) by {
      AlignedSum(|body|, |child|);
      AlignedPayload(id, body + child);
    }
    assert Put16(LenOf(before) + |child|) + before[2..] + child
        == Put16(NLA_HDRLEN + |body + child|) + Put16(id) + (body + child);
  }
}
