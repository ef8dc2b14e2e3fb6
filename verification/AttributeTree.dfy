/** Attributes nested to any depth, and what it means for the getters to read one back. */
module AttributeTree {
  import opened Bytes
  import opened AttributeFormat

  datatype Node =
    | Leaf(id: nat, bytes: Buffer)
    | Nest(id: nat, kids: seq<Node>)

  function ToAttr(n: Node): (a: Attr)
    ensures a.id == n.id
  {
    match n
    case Leaf(id, bytes) => Attr(id, bytes)
    case Nest(id, kids) => Attr(id, EncodeNodes(kids))
  }

  function ToAttrs(kids: seq<Node>): (attrs: seq<Attr>)
    decreases kids, 0
    ensures |attrs| == |kids|
    ensures forall i :: 0 <= i < |kids| ==> attrs[i] == ToAttr(kids[i])
  {
    seq(|kids|, i requires 0 <= i < |kids| => ToAttr(kids[i]))
  }

  function EncodeNodes(kids: seq<Node>): Buffer
    decreases kids, 1
  {
    EncodeAll(ToAttrs(kids))
  }

  function EncodeNode(n: Node): Buffer {
    Encode(ToAttr(n))
  }

  /** Every length and id in the tree fits its 16-bit field. */
  predicate FitsTree(n: Node) {
    Fits(ToAttr(n)) && (n.Nest? ==> forall i :: 0 <= i < |n.kids| ==> FitsTree(n.kids[i]))
  }

  predicate AllFitTree(kids: seq<Node>) {
    forall i :: 0 <= i < |kids| ==> FitsTree(kids[i])
  }

  /** `b` reads as `n`: same id, same payload, and for nested attributes the same children in order. */
  ghost predicate Reads(b: Buffer, n: Node)
    decreases n
  {
    && HasPayload(b)
    && IdOf(b) == n.id
    && match n
       case Leaf(_, bytes) => ValueOf(b) == bytes
       case Nest(_, kids) =>
         && WellFormed(b[NLA_HDRLEN..])
         && |Slices(b[NLA_HDRLEN..])| == |kids|
         && forall i :: 0 <= i < |kids| ==> Reads(Slices(b[NLA_HDRLEN..])[i], kids[i])
  }

  lemma {:induction false} NestedBody(n: Node)
    requires n.Nest?
    ensures EncodeNode(n)[NLA_HDRLEN..] == EncodeNodes(n.kids)
  {
    EncodedIsAligned(ToAttrs(n.kids));
    AlignedPayload(n.id, EncodeNodes(n.kids));
  }

  /** Whatever the depth, an encoded tree reads back as itself. */
  lemma {:induction false} TreeRoundTrip(n: Node)
    requires FitsTree(n)
    ensures Reads(EncodeNode(n), n)
  {
    EncodeRoundTrip(ToAttr(n));
    if n.Nest? {
      NestedBody(n);
      NodesRoundTrip(n.kids);
    }
  }

  lemma {:induction false} NodesRoundTrip(kids: seq<Node>)
    requires AllFitTree(kids)
    ensures WellFormed(EncodeNodes(kids)) && |Slices(EncodeNodes(kids))| == |kids|
    ensures forall i :: 0 <= i < |kids| ==> Reads(Slices(EncodeNodes(kids))[i], kids[i])
  {
    var attrs := ToAttrs(kids);
    EncodedIsWellFormed(attrs);
    SlicesOfEncoded(attrs);
    forall i | 0 <= i < |kids|
      ensures Reads(Slices(EncodeNodes(kids))[i], kids[i])
    {
      TreeRoundTrip(kids[i]);
    }
  }

  /** Two trees that one buffer reads as are equal: the reading loses nothing. */
  lemma {:induction false} ReadingIsUnique(b: Buffer, m: Node, n: Node)
    requires Reads(b, m) && Reads(b, n) && SameShape(m, n)
    ensures m == n
    decreases m
  {
    if m.Nest? {
      forall i | 0 <= i < |m.kids|
        ensures m.kids[i] == n.kids[i]
      {
        ReadingIsUnique(Slices(b[NLA_HDRLEN..])[i], m.kids[i], n.kids[i]);
      }
      assert m.kids == n.kids;
    }
  }

  /** Nesting is a matter of interpretation: the format does not mark which attributes are nested. */
  ghost predicate SameShape(m: Node, n: Node) {
    m.Nest? == n.Nest?
    && (m.Nest? ==> forall i :: 0 <= i < |m.kids| && i < |n.kids| ==> SameShape(m.kids[i], n.kids[i]))
  }

  lemma {:induction false} NodesAppend(xs: seq<Node>, ys: seq<Node>)
    ensures EncodeNodes(xs + ys) == EncodeNodes(xs) + EncodeNodes(ys)
  {
    assert ToAttrs(xs + ys) == ToAttrs(xs) + ToAttrs(ys);
    EncodeAllAppend(ToAttrs(xs), ToAttrs(ys));
  }

  lemma {:induction false} EncodeOne(n: Node)
    ensures EncodeNodes([n]) == EncodeNode(n)
    ensures |EncodeNode(n)| % 4 == 0
  {
    assert ToAttrs([n]) == [ToAttr(n)];
    EncodeAllOne(ToAttr(n));
    EncodedIsAligned(ToAttrs([n]));
  }

  lemma {:induction false} EncodeEmpty(id: nat)
    ensures EncodeNodes([]) == [] && EncodeNode(Nest(id, [])) == Encode(Attr(id, []))
  {
    assert ToAttrs([]) == [];
  }

  // ---- lookup by id among children ----

  function FirstChild(kids: seq<Node>, id: nat): Option<Node> {
    if kids == [] then None else if kids[0].id == id then Some(kids[0]) else FirstChild(kids[1..], id)
  }

  lemma {:induction false} LookupFirstChild(kids: seq<Node>, id: nat)
    ensures Lookup(ToAttrs(kids), id) ==
            match FirstChild(kids, id) case None => None case Some(n) => Some(ToAttr(n).payload)
    ensures FirstChild(kids, id).Some? ==> FirstChild(kids, id).value in kids && FirstChild(kids, id).value.id == id
  {
    if kids != [] {
      assert ToAttrs(kids)[1..] == ToAttrs(kids[1..]);
      LookupFirstChild(kids[1..], id);
    }
  }

  lemma {:induction false} FirstChildAppend(xs: seq<Node>, ys: seq<Node>, id: nat)
    ensures FirstChild(xs + ys, id) == if FirstChild(xs, id).Some? then FirstChild(xs, id) else FirstChild(ys, id)
  {
    if xs == [] {
      assert xs + ys == ys;
    } else {
      assert (xs + ys)[1..] == xs[1..] + ys;
      FirstChildAppend(xs[1..], ys, id);
    }
  }

  /** A search by id in encoded children finds the first child with that id, and nothing nested deeper. */
  lemma {:induction false} FindChild(kids: seq<Node>, id: nat)
    requires AllFitTree(kids)
    ensures Find(EncodeNodes(kids), id) ==
            match FirstChild(kids, id) case None => None case Some(n) => Some(EncodeNode(n))
    ensures FirstChild(kids, id).Some? ==> FitsTree(FirstChild(kids, id).value)
  {
    FindInEncoded(ToAttrs(kids), id);
    LookupFirstChild(kids, id);
  }

  lemma {:induction false} FindUIntChild(kids: seq<Node>, id: nat, value: nat, width: nat)
    requires AllFitTree(kids) && FirstChild(kids, id) == Some(Leaf(id, LittleEndian(value, width)))
    requires value < Pow256(width)
    ensures FindUInt(EncodeNodes(kids), id, width) == Some(value)
  {
    LookupFirstChild(kids, id);
    FindUIntInEncoded(ToAttrs(kids), id, width);
    ValueOfLittleEndian(value, width);
  }

  lemma {:induction false} FindBytesChild(kids: seq<Node>, id: nat, bytes: Buffer)
    requires AllFitTree(kids) && FirstChild(kids, id) == Some(Leaf(id, bytes))
    ensures NoShortHeaders(EncodeNodes(kids)) && BytesReadable(EncodeNodes(kids), id) && FindBytes(EncodeNodes(kids), id) == Some(bytes)
  {
    LookupFirstChild(kids, id);
    FindBytesInEncoded(ToAttrs(kids), id);
  }

  /** The children of an encoded nested attribute, one slice each. */
  lemma {:induction false} SlicesOfNested(n: Node)
    requires FitsTree(n) && n.Nest?
    ensures EncodeNode(n)[NLA_HDRLEN..] == EncodeNodes(n.kids)
    ensures WellFormed(EncodeNodes(n.kids)) && NoShortHeaders(EncodeNodes(n.kids)) && NonzeroHeaders(EncodeNodes(n.kids))
    ensures |Slices(EncodeNodes(n.kids))| == |n.kids|
    ensures forall i :: 0 <= i < |n.kids| ==> Slices(EncodeNodes(n.kids))[i] == EncodeNode(n.kids[i])
  {
    NestedBody(n);
    EncodedIsWellFormed(ToAttrs(n.kids));
    SlicesOfEncoded(ToAttrs(n.kids));
  }
}
