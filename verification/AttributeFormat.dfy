/**
 The nl80211 attribute format: a 16-bit length (header and payload, padding
 excluded), a 16-bit type, the payload, and zeros up to a multiple of four.
 These are the functions the methods on attributes and packets are proved against.
 */
module AttributeFormat {
  import opened Bytes

  const NLA_HDRLEN: nat := 4

  function NlaAlign(n: nat): (r: nat)
    ensures n <= r < n + 4 && r % 4 == 0
  {
    (n + 3) / 4 * 4
  }

  lemma {:induction false} AlignOfMultiple(n: nat)
    requires n % 4 == 0
    ensures NlaAlign(n) == n && NlaAlign(NLA_HDRLEN + n) == NLA_HDRLEN + n
  {
  }

  lemma {:induction false} AlignPastHeader(n: nat)
    ensures NlaAlign(NLA_HDRLEN + n) == NLA_HDRLEN + NlaAlign(n)
  {
  }

  lemma {:induction false} AlignedSum(m: nat, n: nat)
    requires m % 4 == 0 && n % 4 == 0
    ensures (m + n) % 4 == 0
  {
  }

  lemma {:induction false} AlignedDifference(m: nat, n: nat)
    requires m % 4 == 0 && n % 4 == 0 && n <= m
    ensures (m - n) % 4 == 0
  {
  }

  datatype Attr = Attr(id: nat, payload: Buffer)

  /** Both header fields hold their values without truncation. */
  predicate Fits(a: Attr) {
    a.id < U16_SIZE && NLA_HDRLEN + |a.payload| < U16_SIZE
  }

  function Encode(a: Attr): Buffer {
    Put16(NLA_HDRLEN + |a.payload|) + Put16(a.id) + a.payload
    + Zeros(NlaAlign(|a.payload|) - |a.payload|)
  }

  /** Storing a type and a length over four zeros leaves an attribute without payload. */
  lemma {:induction false} StoredFlag(before: Buffer, id: nat)
    ensures var flag := |before|;
            var typed := (before + Zeros(NLA_HDRLEN))[..flag + 2] + Put16(id) + (before + Zeros(NLA_HDRLEN))[flag + 4..];
            typed[..flag] + Put16(NLA_HDRLEN) + typed[flag + 2..] == before + Encode(Attr(id, []))
  {
    var flag := |before|;
    var typed := (before + Zeros(NLA_HDRLEN))[..flag + 2] + Put16(id) + (before + Zeros(NLA_HDRLEN))[flag + 4..];
    assert typed == before + Zeros(2) + Put16(id);
    assert Encode(Attr(id, [])) == Put16(NLA_HDRLEN) + Put16(id);
  }

  /** Storing a type and a length into zeros leaves an attribute with a zero payload. */
  lemma {:induction false} StoredHeader(id: nat, n: nat)
    ensures var all := Zeros(NLA_HDRLEN + NlaAlign(n));
            var typed := all[..2] + Put16(id) + all[4..];
            Put16(NLA_HDRLEN + n) + typed[2..] == Encode(Attr(id, Zeros(n)))
  {
    var all := Zeros(NLA_HDRLEN + NlaAlign(n));
    var typed := all[..2] + Put16(id) + all[4..];
    assert typed[2..] == Put16(id) + Zeros(NlaAlign(n));
    assert Zeros(NlaAlign(n)) == Zeros(n) + Zeros(NlaAlign(n) - n);
    assert Put16(NLA_HDRLEN + n) + (Put16(id) + (Zeros(n) + Zeros(NlaAlign(n) - n))) == Encode(Attr(id, Zeros(n)));
  }

  function EncodeAll(attrs: seq<Attr>): Buffer {
    if attrs == [] then [] else Encode(attrs[0]) + EncodeAll(attrs[1..])
  }

  predicate AllFit(attrs: seq<Attr>) {
    forall i :: 0 <= i < |attrs| ==> Fits(attrs[i])
  }

  // ---- reading one attribute ----

  function LenOf(b: Buffer): nat
    requires |b| >= NLA_HDRLEN
  {
    U16At(b, 0)
  }

  function IdOf(b: Buffer): nat
    requires |b| >= NLA_HDRLEN
  {
    U16At(b, 2)
  }

  predicate IsValid(b: Buffer) {
    |b| >= NLA_HDRLEN && NlaAlign(LenOf(b)) == |b|
  }

  /** Valid, and its length covers its own header: there is a payload to read. */
  predicate HasPayload(b: Buffer) {
    IsValid(b) && LenOf(b) >= NLA_HDRLEN
  }

  function ValueOf(b: Buffer): Buffer
    requires HasPayload(b)
  {
    b[NLA_HDRLEN..LenOf(b)]
  }

  function Decode(b: Buffer): Attr
    requires HasPayload(b)
  {
    Attr(IdOf(b), ValueOf(b))
  }

  // ---- reading a list of attributes ----

  /** The walk over the list stops at this header. */
  predicate Broken(b: Buffer)
    requires |b| >= NLA_HDRLEN
  {
    LenOf(b) == 0 || NlaAlign(LenOf(b)) > |b|
  }

  function Rest(b: Buffer): (r: Buffer)
    requires |b| >= NLA_HDRLEN && !Broken(b)
    ensures |r| < |b|
  {
    b[NlaAlign(LenOf(b))..]
  }

  /** The list view: header, payload and padding of each attribute up to the first broken one. */
  function Slices(b: Buffer): seq<Buffer> {
    if |b| < NLA_HDRLEN || Broken(b) then [] else [b[..NlaAlign(LenOf(b))]] + Slices(Rest(b))
  }

  /** The walk reaches the end of the buffer. */
  predicate WellFormed(b: Buffer) {
    |b| < NLA_HDRLEN || (!Broken(b) && WellFormed(Rest(b)))
  }

  /** No header met by the walk has length zero. */
  predicate NonzeroHeaders(b: Buffer) {
    |b| < NLA_HDRLEN || (LenOf(b) != 0 && (Broken(b) || NonzeroHeaders(Rest(b))))
  }

  /** No header met by the walk has a length of one to three, too short to cover itself. */
  predicate NoShortHeaders(b: Buffer) {
    |b| < NLA_HDRLEN || Broken(b) || (LenOf(b) >= NLA_HDRLEN && NoShortHeaders(Rest(b)))
  }

  function Decodes(slices: seq<Buffer>): (attrs: seq<Attr>)
    requires forall i :: 0 <= i < |slices| ==> HasPayload(slices[i])
    ensures |attrs| == |slices|
    ensures forall i :: 0 <= i < |slices| ==> attrs[i] == Decode(slices[i])
  {
    seq(|slices|, i requires 0 <= i < |slices| => Decode(slices[i]))
  }

  /** The first attribute with a given id, or none: what a lookup by id means. */
  function FirstWithId(slices: seq<Buffer>, id: nat): Option<Buffer>
    requires forall i :: 0 <= i < |slices| ==> IsValid(slices[i])
  {
    if |slices| == 0 then None
    else (assert IsValid(slices[0]);
          if IdOf(slices[0]) == id then Some(slices[0]) else FirstWithId(slices[1..], id))
  }

  lemma {:induction false} SlicesAreValid(b: Buffer)
    ensures forall i :: 0 <= i < |Slices(b)| ==> IsValid(Slices(b)[i])
    ensures NoShortHeaders(b) ==> forall i :: 0 <= i < |Slices(b)| ==> HasPayload(Slices(b)[i])
  {
    if |b| >= NLA_HDRLEN && !Broken(b) {
      SlicesAreValid(Rest(b));
      HeadSlice(b);
    }
  }

  lemma {:induction false} HeadSlice(b: Buffer)
    requires |b| >= NLA_HDRLEN && !Broken(b)
    ensures |Slices(b)| > 0 && Slices(b)[0] == b[..NlaAlign(LenOf(b))] && Slices(b)[1..] == Slices(Rest(b))
    ensures IsValid(Slices(b)[0]) && LenOf(Slices(b)[0]) == LenOf(b) && IdOf(Slices(b)[0]) == IdOf(b)
  {
  }

  /** A loop over a buffer stands at offset `ptr` after `k` attributes. */
  ghost predicate WalkedTo(b: Buffer, ptr: nat, k: nat) {
    && ptr <= |b| && k <= |Slices(b)|
    && Slices(b[ptr..]) == Slices(b)[k..]
    && WellFormed(b) == WellFormed(b[ptr..])
  }

  lemma {:induction false} SuffixStep(b: Buffer, ptr: nat, next: nat)
    requires ptr + NLA_HDRLEN <= |b|
    requires U16At(b, ptr) != 0 && next == ptr + NlaAlign(U16At(b, ptr)) <= |b|
    ensures Slices(b[ptr..]) == [b[ptr..next]] + Slices(b[next..])
    ensures WellFormed(b[ptr..]) == WellFormed(b[next..])
  {
    var header := b[ptr..];
    assert LenOf(header) == U16At(b, ptr);
    assert header[..next - ptr] == b[ptr..next];
    assert Rest(header) == b[next..];
  }

  /** A slice taken by its own header is valid unless its length is zero. */
  lemma {:induction false} SliceIsValid(b: Buffer, ptr: nat, next: nat)
    requires ptr + NLA_HDRLEN <= |b| && next == ptr + NlaAlign(U16At(b, ptr)) <= |b|
    ensures IsValid(b[ptr..next]) <==> U16At(b, ptr) != 0
  {
    if U16At(b, ptr) != 0 {
      assert LenOf(b[ptr..next]) == U16At(b, ptr);
    }
  }

  lemma {:induction false} TailOfSuffix<T>(all: seq<T>, k: nat, x: T, rest: seq<T>)
    requires k <= |all| && all[k..] == [x] + rest
    ensures k < |all| && all[k] == x && all[k + 1..] == rest
  {
    assert all[k] == all[k..][0];
    assert all[k + 1..] == all[k..][1..];
  }

  /** One step of such a loop: the attribute at the offset is the next of the list view. */
  lemma {:induction false} WalkStep(b: Buffer, ptr: nat, k: nat)
    requires WalkedTo(b, ptr, k) && ptr + NLA_HDRLEN <= |b|
    requires U16At(b, ptr) != 0 && ptr + NlaAlign(U16At(b, ptr)) <= |b|
    ensures WalkedTo(b, ptr + NlaAlign(U16At(b, ptr)), k + 1)
    ensures Slices(b)[k] == b[ptr..ptr + NlaAlign(U16At(b, ptr))]
  {
    var next := ptr + NlaAlign(U16At(b, ptr));
    SuffixStep(b, ptr, next);
    TailOfSuffix(Slices(b), k, b[ptr..next], Slices(b[next..]));
  }

  lemma {:induction false} WalkBroken(b: Buffer, ptr: nat, k: nat)
    requires WalkedTo(b, ptr, k) && ptr + NLA_HDRLEN <= |b|
    requires U16At(b, ptr) == 0 || ptr + NlaAlign(U16At(b, ptr)) > |b|
    ensures !WellFormed(b)
  {
    assert LenOf(b[ptr..]) == U16At(b, ptr);
  }

  lemma {:induction false} WalkEnd(b: Buffer, ptr: nat, k: nat)
    requires WalkedTo(b, ptr, k) && ptr + NLA_HDRLEN > |b|
    ensures WellFormed(b) && k == |Slices(b)|
  {
  }

  /** Lookup by id on any buffer, in terms of its list view. */
  function Find(b: Buffer, id: nat): Option<Buffer> {
    SlicesAreValid(b);
    FirstWithId(Slices(b), id)
  }

  lemma {:induction false} FindStep(b: Buffer, id: nat)
    ensures |b| < NLA_HDRLEN || Broken(b) ==> Find(b, id) == None
    ensures |b| >= NLA_HDRLEN && !Broken(b) && IdOf(b) == id ==> Find(b, id) == Some(b[..NlaAlign(LenOf(b))])
    ensures |b| >= NLA_HDRLEN && !Broken(b) && IdOf(b) != id ==> Find(b, id) == Find(Rest(b), id)
  {
    if |b| >= NLA_HDRLEN && !Broken(b) {
      HeadSlice(b);
    }
  }

  lemma {:induction false} FindIsValid(b: Buffer, id: nat)
    ensures Find(b, id).Some? ==> IsValid(Find(b, id).value) && IdOf(Find(b, id).value) == id
    ensures Find(b, id).Some? && NoShortHeaders(b) ==> HasPayload(Find(b, id).value)
    decreases |b|
  {
    FindStep(b, id);
    if |b| >= NLA_HDRLEN && !Broken(b) {
      HeadSlice(b);
      if IdOf(b) != id {
        FindIsValid(Rest(b), id);
      }
    }
  }

  /**
   A search for an id comes to an end: no header before the first match has length zero. What stands behind the
   match does not matter, nor does the length of the match itself.
   */
  predicate SearchEnds(b: Buffer, id: nat) {
    |b| < NLA_HDRLEN || IdOf(b) == id || (LenOf(b) != 0 && (Broken(b) || SearchEnds(Rest(b), id)))
  }

  /** The bytes such a search delivers; they are none at all for a match of length zero. */
  function Found(b: Buffer, id: nat): Option<Buffer> {
    if |b| < NLA_HDRLEN || NlaAlign(LenOf(b)) > |b| then None
    else if IdOf(b) == id then Some(b[..NlaAlign(LenOf(b))])
    else if LenOf(b) == 0 then None
    else Found(Rest(b), id)
  }

  /** The bytes found are the first attribute with the id in the list view, unless they are none at all. */
  lemma {:induction false} FoundIsFirst(b: Buffer, id: nat)
    ensures Find(b, id) == if Found(b, id).Some? && IsValid(Found(b, id).value) then Found(b, id) else None
    ensures Found(b, id).Some? ==> IsValid(Found(b, id).value) || Found(b, id).value == []
    ensures NonzeroHeaders(b) ==> SearchEnds(b, id) && Found(b, id) == Find(b, id)
    decreases |b|
  {
    FindStep(b, id);
    if |b| >= NLA_HDRLEN && !Broken(b) {
      HeadSlice(b);
      if IdOf(b) != id {
        FoundIsFirst(Rest(b), id);
      }
    }
  }

  /** A search that stands at offset `ptr` has found nothing so far. */
  ghost predicate Searching(b: Buffer, ptr: nat, id: nat) {
    if ptr <= |b| then SearchEnds(b[ptr..], id) && Found(b, id) == Found(b[ptr..], id) else Found(b, id) == None
  }

  lemma {:induction false} SearchStarts(b: Buffer, id: nat)
    requires SearchEnds(b, id)
    ensures Searching(b, 0, id)
  {
    assert b[0..] == b;
  }

  /** A search at an offset where the id matches. */
  lemma {:induction false} SearchHits(b: Buffer, ptr: nat, id: nat)
    requires Searching(b, ptr, id) && ptr + NLA_HDRLEN <= |b| && U16At(b, ptr + 2) == id
    ensures var next := ptr + NlaAlign(U16At(b, ptr));
            Found(b, id) == if next > |b| then None else Some(b[ptr..next])
  {
    var header, n := b[ptr..], NlaAlign(U16At(b, ptr));
    assert LenOf(header) == U16At(b, ptr) && IdOf(header) == id;
    if ptr + n <= |b| {
      assert header[..n] == b[ptr..ptr + n];
    }
  }

  /** A search at an offset where it does not match goes on behind that attribute. */
  lemma {:induction false} SearchGoesOn(b: Buffer, ptr: nat, id: nat)
    requires Searching(b, ptr, id) && ptr + NLA_HDRLEN <= |b| && U16At(b, ptr + 2) != id
    ensures U16At(b, ptr) != 0 && Searching(b, ptr + NlaAlign(U16At(b, ptr)), id)
  {
    var header, n := b[ptr..], NlaAlign(U16At(b, ptr));
    assert LenOf(header) == U16At(b, ptr) && IdOf(header) == U16At(b, ptr + 2);
    if ptr + n <= |b| {
      assert header[n..] == b[ptr + n..];
    }
  }

  lemma {:induction false} SearchFails(b: Buffer, ptr: nat, id: nat)
    requires Searching(b, ptr, id) && ptr + NLA_HDRLEN > |b|
    ensures Found(b, id) == None
  {
  }

  lemma {:induction false} SliceHasPayload(b: Buffer, k: nat)
    requires NoShortHeaders(b) && k < |Slices(b)|
    ensures HasPayload(Slices(b)[k])
  {
    SlicesAreValid(b);
  }

  lemma {:induction false} SearchesEnd(b: Buffer)
    requires NonzeroHeaders(b)
    ensures forall id: nat :: SearchEnds(b, id) && Found(b, id) == Find(b, id)
  {
    forall id: nat
      ensures SearchEnds(b, id) && Found(b, id) == Find(b, id)
    {
      FoundIsFirst(b, id);
    }
  }

  // ---- round trips ----

  lemma {:induction false} EncodeReads(a: Attr)
    ensures |Encode(a)| == NLA_HDRLEN + NlaAlign(|a.payload|)
    ensures LenOf(Encode(a)) == (NLA_HDRLEN + |a.payload|) % U16_SIZE
    ensures IdOf(Encode(a)) == a.id % U16_SIZE
    ensures Encode(a)[NLA_HDRLEN..NLA_HDRLEN + |a.payload|] == a.payload
  {
    var tail := Put16(a.id) + a.payload + Zeros(NlaAlign(|a.payload|) - |a.payload|);
    assert Encode(a) == Put16(NLA_HDRLEN + |a.payload|) + tail;
    Put16Reads(NLA_HDRLEN + |a.payload|, tail);
    Put16Reads(a.id, a.payload + Zeros(NlaAlign(|a.payload|) - |a.payload|));
    assert Encode(a)[2..] == Put16(a.id) + (a.payload + Zeros(NlaAlign(|a.payload|) - |a.payload|));
    assert U16At(Encode(a)[2..], 0) == U16At(Encode(a), 2);
  }

  lemma {:induction false} AlignedPayload(id: nat, body: Buffer)
    requires |body| % 4 == 0
    ensures Encode(Attr(id, body)) == Put16(NLA_HDRLEN + |body|) + Put16(id) + body
    ensures Encode(Attr(id, body))[NLA_HDRLEN..] == body
  {
    AlignOfMultiple(|body|);
  }

  /** An encoded attribute is valid exactly when its length did not wrap; then it decodes to itself. */
  lemma {:induction false} EncodeRoundTrip(a: Attr)
    ensures IsValid(Encode(a)) <==> NLA_HDRLEN + |a.payload| < U16_SIZE
    ensures Fits(a) ==> HasPayload(Encode(a)) && Decode(Encode(a)) == a
  {
    var n := NLA_HDRLEN + |a.payload|;
    EncodeReads(a);
    WrappedLength(n);
    assert |Encode(a)| == NlaAlign(n) by { AlignPastHeader(|a.payload|); }
  }

  /** A length keeps its aligned size in 16 bits exactly if it does not wrap. */
  lemma {:induction false} WrappedLength(n: nat)
    ensures NlaAlign(n % U16_SIZE) == NlaAlign(n) <==> n < U16_SIZE
    ensures n < U16_SIZE ==> n % U16_SIZE == n
  {
    if n >= U16_SIZE {
      assert n % U16_SIZE <= n - U16_SIZE;
    }
  }

  lemma {:induction false} EncodedId(a: Attr)
    requires Fits(a)
    ensures HasPayload(Encode(a)) && IdOf(Encode(a)) == a.id
  {
    EncodeRoundTrip(a);
  }

  /** Where the first attribute of a buffer starting with an encoded one ends. */
  lemma {:induction false} ConsShape(a: Attr, b: Buffer)
    requires Fits(a)
    ensures var w := Encode(a) + b;
            && |w| >= NLA_HDRLEN
            && LenOf(w) == NLA_HDRLEN + |a.payload| && IdOf(w) == a.id
            && !Broken(w)
            && w[..NlaAlign(LenOf(w))] == Encode(a)
            && Rest(w) == b
  {
    var e, w := Encode(a), Encode(a) + b;
    EncodeRoundTrip(a);
    assert w[0] == e[0] && w[1] == e[1] && w[2] == e[2] && w[3] == e[3];
    assert NlaAlign(LenOf(w)) == |e|;
    assert LenOf(e) == NLA_HDRLEN + |a.payload| by { EncodeReads(a); }
  }

  lemma {:induction false} SlicesOfCons(a: Attr, b: Buffer)
    requires Fits(a)
    ensures Slices(Encode(a) + b) == [Encode(a)] + Slices(b)
    ensures WellFormed(Encode(a) + b) == WellFormed(b)
    ensures NonzeroHeaders(Encode(a) + b) == NonzeroHeaders(b)
    ensures NoShortHeaders(Encode(a) + b) == NoShortHeaders(b)
  {
    ConsShape(a, b);
  }

  lemma {:induction false} EncodedIsWellFormed(attrs: seq<Attr>)
    requires AllFit(attrs)
    ensures WellFormed(EncodeAll(attrs)) && NonzeroHeaders(EncodeAll(attrs)) && NoShortHeaders(EncodeAll(attrs))
  {
    if attrs != [] {
      EncodedIsWellFormed(attrs[1..]);
      SlicesOfCons(attrs[0], EncodeAll(attrs[1..]));
    }
  }

  lemma {:induction false} EncodedSize(a: Attr)
    ensures |Encode(a)| == NLA_HDRLEN + NlaAlign(|a.payload|) && |Encode(a)| % 4 == 0
  {
    AlignedSum(NLA_HDRLEN, NlaAlign(|a.payload|));
  }

  lemma {:induction false} EncodedIsAligned(attrs: seq<Attr>)
    ensures |EncodeAll(attrs)| % 4 == 0
  {
    if attrs != [] {
      EncodedIsAligned(attrs[1..]);
      EncodedSize(attrs[0]);
      AlignedSum(|Encode(attrs[0])|, |EncodeAll(attrs[1..])|);
    }
  }

  function Encodings(attrs: seq<Attr>): (slices: seq<Buffer>)
    ensures |slices| == |attrs|
    ensures forall i :: 0 <= i < |attrs| ==> slices[i] == Encode(attrs[i])
  {
    seq(|attrs|, i requires 0 <= i < |attrs| => Encode(attrs[i]))
  }

  lemma {:induction false} SlicesOfEncoded(attrs: seq<Attr>)
    requires AllFit(attrs)
    ensures Slices(EncodeAll(attrs)) == Encodings(attrs)
  {
    if attrs != [] {
      SlicesOfEncoded(attrs[1..]);
      SlicesOfCons(attrs[0], EncodeAll(attrs[1..]));
      assert Encodings(attrs) == [Encode(attrs[0])] + Encodings(attrs[1..]);
    }
  }

  /** Encoding a list and reading it back returns the same attributes in the same order. */
  lemma {:induction false} EncodeAllRoundTrip(attrs: seq<Attr>)
    requires AllFit(attrs)
    ensures WellFormed(EncodeAll(attrs)) && NoShortHeaders(EncodeAll(attrs))
    ensures forall i :: 0 <= i < |Slices(EncodeAll(attrs))| ==> HasPayload(Slices(EncodeAll(attrs))[i])
    ensures Decodes(Slices(EncodeAll(attrs))) == attrs
  {
    SlicesOfEncoded(attrs);
    EncodedIsWellFormed(attrs);
    forall i | 0 <= i < |attrs|
      ensures HasPayload(Encode(attrs[i])) && Decode(Encode(attrs[i])) == attrs[i]
    {
      EncodeRoundTrip(attrs[i]);
    }
  }

  lemma {:induction false} EncodeAllAppend(xs: seq<Attr>, ys: seq<Attr>)
    ensures EncodeAll(xs + ys) == EncodeAll(xs) + EncodeAll(ys)
  {
    if xs == [] {
      assert xs + ys == ys;
    } else {
      assert (xs + ys)[1..] == xs[1..] + ys;
      EncodeAllAppend(xs[1..], ys);
    }
  }

  lemma {:induction false} EncodeAllOne(a: Attr)
    ensures EncodeAll([a]) == Encode(a)
  {
    assert [a][1..] == [];
    assert Encode(a) + [] == Encode(a);
  }

  /** Lookup in a list of attributes, without bytes. */
  function Lookup(attrs: seq<Attr>, id: nat): Option<Buffer> {
    if attrs == [] then None
    else if attrs[0].id == id then Some(attrs[0].payload)
    else Lookup(attrs[1..], id)
  }

  /** Lookup by id in an encoded list is lookup in the list, whatever follows or is nested deeper. */
  lemma {:induction false} FindInEncoded(attrs: seq<Attr>, id: nat)
    requires AllFit(attrs)
    ensures Find(EncodeAll(attrs), id) ==
            match Lookup(attrs, id) case None => None case Some(p) => Some(Encode(Attr(id, p)))
  {
    FindStep(EncodeAll(attrs), id);
    if attrs != [] {
      ConsShape(attrs[0], EncodeAll(attrs[1..]));
      FindInEncoded(attrs[1..], id);
    }
  }

  lemma {:induction false} LookupMember(attrs: seq<Attr>, id: nat)
    ensures Lookup(attrs, id).Some? <==> exists i :: 0 <= i < |attrs| && attrs[i].id == id
    ensures Lookup(attrs, id).Some? ==> Attr(id, Lookup(attrs, id).value) in attrs
  {
    if attrs != [] {
      LookupMember(attrs[1..], id);
      if attrs[0].id != id && (exists i :: 0 <= i < |attrs| && attrs[i].id == id) {
        var i :| 0 <= i < |attrs| && attrs[i].id == id;
        assert attrs[1..][i - 1].id == id;
      }
      if Lookup(attrs[1..], id).Some? {
        var i :| 0 <= i < |attrs[1..]| && attrs[1..][i].id == id;
        assert attrs[i + 1].id == id;
      }
    }
  }

  // ---- typed values ----

  /** The check of NL80211Attr<T>::IsValid for an integral T of `width` bytes. */
  predicate IsValidIntegral(b: Buffer, width: nat) {
    IsValid(b) && NlaAlign(width) + NLA_HDRLEN == |b| && LenOf(b) == width + NLA_HDRLEN
  }

  function UIntOf(b: Buffer, width: nat): nat
    requires IsValidIntegral(b, width)
  {
    Value(b[NLA_HDRLEN..NLA_HDRLEN + width])
  }

  function FindUInt(b: Buffer, id: nat, width: nat): Option<nat> {
    match Find(b, id)
    case None => None
    case Some(s) => if IsValidIntegral(s, width) then Some(UIntOf(s, width)) else None
  }

  /** A typed read of an encoded integer succeeds exactly for its own width, and returns the integer. */
  lemma {:induction false} FindUIntInEncoded(attrs: seq<Attr>, id: nat, width: nat)
    requires AllFit(attrs)
    ensures FindUInt(EncodeAll(attrs), id, width) ==
            match Lookup(attrs, id)
            case None => None
            case Some(p) => if |p| == width then Some(Value(p)) else None
  {
    FindInEncoded(attrs, id);
    LookupMember(attrs, id);
    if Lookup(attrs, id).Some? {
      var a := Attr(id, Lookup(attrs, id).value);
      EncodeRoundTrip(a);
      EncodeReads(a);
    }
  }

  /** If the list view has the id, the length of the first match covers its own header. */
  predicate BytesReadable(b: Buffer, id: nat) {
    Find(b, id).Some? ==> HasPayload(Find(b, id).value)
  }

  /** None also for a match too short for its own header, which must not be read. */
  function FindBytes(b: Buffer, id: nat): Option<Buffer> {
    match Find(b, id)
    case None => None
    case Some(s) => if HasPayload(s) then Some(ValueOf(s)) else None
  }

  lemma {:induction false} BytesAreReadable(b: Buffer)
    requires NoShortHeaders(b)
    ensures forall id: nat :: BytesReadable(b, id)
  {
    forall id: nat
      ensures BytesReadable(b, id)
    {
      FindIsValid(b, id);
    }
  }

  lemma {:induction false} FindBytesInEncoded(attrs: seq<Attr>, id: nat)
    requires AllFit(attrs)
    ensures NoShortHeaders(EncodeAll(attrs)) && BytesReadable(EncodeAll(attrs), id)
    ensures FindBytes(EncodeAll(attrs), id) == Lookup(attrs, id)
  {
    EncodedIsWellFormed(attrs);
    BytesAreReadable(EncodeAll(attrs));
    FindInEncoded(attrs, id);
    LookupMember(attrs, id);
    if Lookup(attrs, id).Some? {
      EncodeRoundTrip(Attr(id, Lookup(attrs, id).value));
    }
  }
}
