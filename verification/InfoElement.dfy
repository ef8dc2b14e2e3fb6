/**
 Finding the SSID among information elements (scanning/scan_utils.cpp, GetSSIDFromInfoElement). Elements are
 an identifier, a length and that many bytes (sections 8.4.2.1 and 8.4.2.2 of IEEE 802.11-2012).
 */
module InfoElement {
  import opened Bytes

  const ELEM_ID_SSID: u8 := 0

  datatype Element = Element(id: u8, value: Buffer)

  predicate Encodable(elements: seq<Element>) {
    forall i :: 0 <= i < |elements| ==> |elements[i].value| < 256
  }

  function EncodeElements(elements: seq<Element>): Buffer
    requires Encodable(elements)
  {
    if elements == [] then []
    else
      var e := elements[0];
      [e.id, |e.value| as u8] + e.value + EncodeElements(elements[1..])
  }

  /** No complete element starts here. */
  predicate Truncated(ie: Buffer) {
    |ie| < 2 || |ie| < 2 + ie[1] as int
  }

  /** The complete elements at the front of any bytes. */
  function Elements(ie: Buffer): seq<Element>
    decreases |ie|
  {
    if Truncated(ie) then []
    else
      var end := 2 + ie[1] as int;
      [Element(ie[0], ie[2..end])] + Elements(ie[end..])
  }

  function Tail(ie: Buffer): (tail: Buffer)
    ensures Truncated(tail)
    decreases |ie|
  {
    if Truncated(ie) then ie else Tail(ie[2 + ie[1] as int..])
  }

  lemma {:induction false} FirstElementBytes(ie: Buffer)
    requires !Truncated(ie)
    ensures var end := 2 + ie[1] as int; [ie[0], ie[1]] + ie[2..end] + ie[end..] == ie
  {
  }

  /** Any bytes are the encoding of their complete elements, followed by a truncated rest. */
  lemma {:induction false} ElementsCoverBytes(ie: Buffer)
    ensures Encodable(Elements(ie))
    ensures EncodeElements(Elements(ie)) + Tail(ie) == ie
    decreases |ie|
  {
    if !Truncated(ie) {
      var end := 2 + ie[1] as int;
      var rest := ie[end..];
      ElementsCoverBytes(rest);
      Regroup([ie[0], ie[1]] + ie[2..end], EncodeElements(Elements(rest)), Tail(rest));
      FirstElementBytes(ie);
    }
  }

  /** An encoded list is read back as itself, whatever truncated rest follows. */
  lemma {:induction false} ElementsRoundTrip(elements: seq<Element>, tail: Buffer)
    requires Encodable(elements) && Truncated(tail)
    ensures Elements(EncodeElements(elements) + tail) == elements
  {
    if elements == [] {
      assert EncodeElements(elements) + tail == tail;
    } else {
      var e := elements[0];
      var rest := EncodeElements(elements[1..]);
      var first := [e.id, |e.value| as u8] + e.value;
      ElementsRoundTrip(elements[1..], tail);
      assert EncodeElements(elements) + tail == first + (rest + tail) by { Regroup(first, rest, tail); }
      assert [e] + elements[1..] == elements;
    }
  }

  /** The value of the first SSID element. */
  function FirstSsid(elements: seq<Element>): Option<Buffer> {
    if elements == [] then None
    else if elements[0].id == ELEM_ID_SSID then Some(elements[0].value)
    else FirstSsid(elements[1..])
  }

  lemma {:induction false} ElementAt(ie: Buffer, ptr: nat)
    requires ptr + 1 < |ie| && ptr + 2 + ie[ptr + 1] as int <= |ie|
    ensures var next := ptr + 2 + ie[ptr + 1] as int;
            Elements(ie[ptr..]) == [Element(ie[ptr], ie[ptr + 2..next])] + Elements(ie[next..])
  {
    var next := ptr + 2 + ie[ptr + 1] as int;
    var here := ie[ptr..];
    assert here[0] == ie[ptr] && here[1] == ie[ptr + 1];
    assert here[2..next - ptr] == ie[ptr + 2..next];
    assert here[next - ptr..] == ie[next..];
  }

  /**
   On all bytes, the loop finds the first SSID among the complete elements, and fails if there is none before
   the bytes end or an element is cut short.
   */
  method GetSSIDFromInfoElement(ie: Buffer, initial: Buffer) returns (found: bool, ssid: Buffer)
    ensures found == FirstSsid(Elements(ie)).Some?
    ensures ssid == FirstSsid(Elements(ie)).GetOr(initial)
  {
    var end := |ie|;
    var ptr := 0;
    while ptr + 1 < end
      invariant ptr <= end && FirstSsid(Elements(ie)) == FirstSsid(Elements(ie[ptr..]))
    {
      var elementType := ie[ptr];
      var length := ie[ptr + 1] as int;
      assert ie[ptr..][1] as int == length;
      if ptr + 1 + length >= end {
        return false, initial;
      }
      ElementAt(ie, ptr);
      if elementType == ELEM_ID_SSID {
        if length == 0 {
          ssid := [];
        } else {
          ssid := ie[ptr + 2..ptr + length + 2];
        }
        return true, ssid;
      }
      ptr := ptr + 2 + length;
    }
    return false, initial;
  }

  /** For any list of elements and any truncated rest, the search gives the first SSID of the list. */
  lemma {:induction false} SsidOfEncoded(elements: seq<Element>, tail: Buffer)
    requires Encodable(elements) && Truncated(tail)
    ensures FirstSsid(Elements(EncodeElements(elements) + tail)) == FirstSsid(elements)
  {
    ElementsRoundTrip(elements, tail);
  }
}
